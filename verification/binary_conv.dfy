/** The binarized convolution -> threshold -> 2x2 max-pool engine shared by
    both convolution layers.  A stage is parameterised by the input size `n`
    (square), the channel count `ch`, one 3x3 kernel per output filter and
    one threshold per filter. */
module BinaryConv {
  import opened Bits

  /** A feature map indexed `[row][col][channel]`. */
  type Grid = seq<seq<seq<Bit>>>

  /** One filter's weights, indexed `[kr][kc]`: a single bit per tap, compared
      against every input channel. */
  type Kernel = seq<seq<Bit>>

  predicate IsGrid(x: Grid, n: nat, ch: nat) {
    && |x| == n
    && (forall r :: 0 <= r < n ==> |x[r]| == n)
    && (forall r, c :: 0 <= r < n && 0 <= c < n ==> |x[r][c]| == ch)
  }

  predicate IsKernel(w: Kernel) {
    |w| == 3 && forall kr :: 0 <= kr < 3 ==> |w[kr]| == 3
  }

  predicate IsKernels(ws: seq<Kernel>) {
    forall f :: 0 <= f < |ws| ==> IsKernel(ws[f])
  }

  /** The input value at `(ir, ic, k)`, reading 0 outside the grid (zero padding). */
  function Tap(x: Grid, n: nat, ch: nat, ir: int, ic: int, k: nat): Bit
    requires IsGrid(x, n, ch) && k < ch
  {
    if 0 <= ir < n && 0 <= ic < n then x[ir][ic][k] else 0
  }

  /** XNOR matches of the first `upTo` channels at input position `(ir, ic)`
      against the single weight bit `wb`. */
  function ChannelMatches(x: Grid, n: nat, ch: nat, ir: int, ic: int, wb: Bit, upTo: nat): (m: nat)
    requires IsGrid(x, n, ch) && upTo <= ch
    ensures m <= upTo
  {
    if upTo == 0 then 0
    else ChannelMatches(x, n, ch, ir, ic, wb, upTo - 1) + (if Tap(x, n, ch, ir, ic, upTo - 1) == wb then 1 else 0)
  }

  /** Matches contributed by one tap: how many of the `ch` channels equal the weight bit. */
  function TapMatches(x: Grid, n: nat, ch: nat, ir: int, ic: int, wb: Bit): (m: nat)
    requires IsGrid(x, n, ch)
    ensures m <= ch
  {
    ChannelMatches(x, n, ch, ir, ic, wb, ch)
  }

  /** Matches over the first `t` taps of the 3x3 window centred on `(pr, pc)`,
      taps taken row by row (`kr = t / 3`, `kc = t % 3`). */
  function WindowMatches(x: Grid, n: nat, ch: nat, w: Kernel, pr: int, pc: int, t: nat): nat
    requires IsGrid(x, n, ch) && IsKernel(w) && t <= 9
  {
    if t == 0 then 0
    else
      var kr, kc := (t - 1) / 3, (t - 1) % 3;
      WindowMatches(x, n, ch, w, pr, pc, t - 1) + TapMatches(x, n, ch, pr + kr - 1, pc + kc - 1, w[kr][kc])
  }

  /** The match count of the convolution at input position `(pr, pc)`. */
  function ConvCount(x: Grid, n: nat, ch: nat, w: Kernel, pr: int, pc: int): (m: nat)
    requires IsGrid(x, n, ch) && IsKernel(w)
    ensures m <= 9 * ch
  {
    WindowBound(x, n, ch, w, pr, pc, 9);
    WindowMatches(x, n, ch, w, pr, pc, 9)
  }

  /** The first `t` taps contribute at most `t` matches per channel. */
  lemma {:induction false} WindowBound(x: Grid, n: nat, ch: nat, w: Kernel, pr: int, pc: int, t: nat)
    requires IsGrid(x, n, ch) && IsKernel(w) && t <= 9
    ensures WindowMatches(x, n, ch, w, pr, pc, t) <= t * ch
  {
    if t > 0 {
      WindowBound(x, n, ch, w, pr, pc, t - 1);
      assert (t - 1) * ch + ch == t * ch;
    }
  }

  /** Tap `(kr, kc)` is the next tap after the first `3kr + kc`. */
  lemma WindowUnfold(x: Grid, n: nat, ch: nat, w: Kernel, pr: int, pc: int, t: nat)
    requires IsGrid(x, n, ch) && IsKernel(w) && 0 < t <= 9
    ensures WindowMatches(x, n, ch, w, pr, pc, t)
            == WindowMatches(x, n, ch, w, pr, pc, t - 1)
               + TapMatches(x, n, ch, pr + (t - 1) / 3 - 1, pc + (t - 1) % 3 - 1, w[(t - 1) / 3][(t - 1) % 3])
  {
  }

  lemma WindowStep(x: Grid, n: nat, ch: nat, w: Kernel, pr: int, pc: int, kr: nat, kc: nat)
    requires IsGrid(x, n, ch) && IsKernel(w) && kr < 3 && kc < 3
    ensures WindowMatches(x, n, ch, w, pr, pc, 3 * kr + kc + 1)
            == WindowMatches(x, n, ch, w, pr, pc, 3 * kr + kc) + TapMatches(x, n, ch, pr + kr - 1, pc + kc - 1, w[kr][kc])
  {
    var t := 3 * kr + kc;
    assert t / 3 == kr && t % 3 == kc;
  }

  /** The thresholded ("batch-norm folded") activation of pool sub-position
      `(pr, pc)` of output `(r, c)`: the convolution at input position
      `(2r + pr, 2c + pc)` reaches threshold `t`. */
  predicate SubFires(x: Grid, n: nat, ch: nat, w: Kernel, t: int, r: int, c: int, pr: int, pc: int)
    requires IsGrid(x, n, ch) && IsKernel(w)
  {
    ConvCount(x, n, ch, w, 2 * r + pr, 2 * c + pc) >= t
  }

  /** The 2x2 max pool (logical OR) of the four activations under output `(r, c)`. */
  function PoolBit(x: Grid, n: nat, ch: nat, w: Kernel, t: int, r: int, c: int): (b: Bit)
    requires IsGrid(x, n, ch) && IsKernel(w)
    ensures b == 1 <==> exists pr, pc :: 0 <= pr < 2 && 0 <= pc < 2 && SubFires(x, n, ch, w, t, r, c, pr, pc)
  {
    if SubFires(x, n, ch, w, t, r, c, 0, 0) || SubFires(x, n, ch, w, t, r, c, 0, 1)
       || SubFires(x, n, ch, w, t, r, c, 1, 0) || SubFires(x, n, ch, w, t, r, c, 1, 1)
    then 1 else 0
  }

  /** A feature map indexed `[filter][row][col]`. */
  type Planes = seq<seq<seq<Bit>>>

  predicate IsPlanes(y: Planes, nf: nat, m: nat) {
    && |y| == nf
    && (forall f :: 0 <= f < nf ==> |y[f]| == m)
    && (forall f, r :: 0 <= f < nf && 0 <= r < m ==> |y[f][r]| == m)
  }

  /** One convolution stage: output `[f][r][c]` is 1 iff one of the four
      convolutions under the 2x2 pool window reaches filter `f`'s threshold. */
  function Stage(x: Grid, n: nat, ch: nat, ws: seq<Kernel>, ts: seq<int>): (y: Planes)
    requires IsGrid(x, n, ch) && IsKernels(ws) && |ts| >= |ws|
    ensures IsPlanes(y, |ws|, n / 2)
    ensures forall f, r, c :: 0 <= f < |ws| && 0 <= r < n / 2 && 0 <= c < n / 2 ==>
              (y[f][r][c] == 1 <==>
                 exists pr, pc :: 0 <= pr < 2 && 0 <= pc < 2 && SubFires(x, n, ch, ws[f], ts[f], r, c, pr, pc))
  {
    seq(|ws|, f requires 0 <= f < |ws| => seq(n / 2, r requires 0 <= r < n / 2 =>
      seq(n / 2, c requires 0 <= c < n / 2 => PoolBit(x, n, ch, ws[f], ts[f], r, c))))
  }

  // ---------------------------------------------------------------------
  // The reference scripts' loop nest, step by step
  // ---------------------------------------------------------------------

  /** `matches += sum(ch_vals == wt_bit)` for one tap, with `ch_vals` all zero
      when the tap falls outside the input. */
  method CountChannels(x: Grid, n: nat, ch: nat, ir: int, ic: int, wb: Bit) returns (hits: nat)
    requires IsGrid(x, n, ch)
    ensures hits == TapMatches(x, n, ch, ir, ic, wb)
  {
    var inside := 0 <= ir < n && 0 <= ic < n;
    hits := 0;
    for k := 0 to ch
      invariant hits == ChannelMatches(x, n, ch, ir, ic, wb, k)
    {
      var v := if inside then x[ir][ic][k] else 0;
      if v == wb {
        hits := hits + 1;
      }
    }
  }

  /** The `for kr: for kc:` loop counting XNOR matches of one 3x3 window. */
  method CountWindow(x: Grid, n: nat, ch: nat, w: Kernel, pixR: int, pixC: int) returns (matches: nat)
    requires IsGrid(x, n, ch) && IsKernel(w)
    ensures matches == ConvCount(x, n, ch, w, pixR, pixC)
  {
    matches := 0;
    for kr := 0 to 3
      invariant matches == WindowMatches(x, n, ch, w, pixR, pixC, 3 * kr)
    {
      matches := CountKernelRow(x, n, ch, w, pixR, pixC, kr, matches);
    }
  }

  /** The inner `for kc:` loop: kernel row `kr` added to the matches so far. */
  method CountKernelRow(x: Grid, n: nat, ch: nat, w: Kernel, pixR: int, pixC: int, kr: nat, before: nat)
    returns (matches: nat)
    requires IsGrid(x, n, ch) && IsKernel(w) && kr < 3
    requires before == WindowMatches(x, n, ch, w, pixR, pixC, 3 * kr)
    ensures matches == WindowMatches(x, n, ch, w, pixR, pixC, 3 * kr + 3)
  {
    matches := before;
    for kc := 0 to 3
      invariant matches == WindowMatches(x, n, ch, w, pixR, pixC, 3 * kr + kc)
    {
      matches := AddTap(x, n, ch, w, pixR, pixC, kr, kc, matches);
    }
  }

  /** One pass of the `for kc:` body: tap `(kr, kc)` added to the matches so far. */
  method AddTap(x: Grid, n: nat, ch: nat, w: Kernel, pixR: int, pixC: int, kr: nat, kc: nat, before: nat)
    returns (after: nat)
    requires IsGrid(x, n, ch) && IsKernel(w) && kr < 3 && kc < 3
    requires before == WindowMatches(x, n, ch, w, pixR, pixC, 3 * kr + kc)
    ensures after == WindowMatches(x, n, ch, w, pixR, pixC, 3 * kr + kc + 1)
  {
    var hits := CountChannels(x, n, ch, pixR + kr - 1, pixC + kc - 1, w[kr][kc]);
    WindowStep(x, n, ch, w, pixR, pixC, kr, kc);
    after := before + hits;
  }

  /** The `max_val` loop over the four pool sub-positions. */
  method PoolAt(x: Grid, n: nat, ch: nat, w: Kernel, t: int, r: int, c: int) returns (maxVal: Bit)
    requires IsGrid(x, n, ch) && IsKernel(w)
    ensures maxVal == PoolBit(x, n, ch, w, t, r, c)
  {
    maxVal := 0;
    for pr := 0 to 2
      invariant maxVal == 1 <==>
        exists pr', pc' :: 0 <= pr' < pr && 0 <= pc' < 2 && SubFires(x, n, ch, w, t, r, c, pr', pc')
    {
      for pc := 0 to 2
        invariant maxVal == 1 <==>
          (exists pr', pc' :: 0 <= pr' < pr && 0 <= pc' < 2 && SubFires(x, n, ch, w, t, r, c, pr', pc'))
          || (exists pc' :: 0 <= pc' < pc && SubFires(x, n, ch, w, t, r, c, pr, pc'))
      {
        var matches := CountWindow(x, n, ch, w, 2 * r + pr, 2 * c + pc);
        assert matches >= t <==> SubFires(x, n, ch, w, t, r, c, pr, pc);
        if matches >= t {
          maxVal := 1;
        }
      }
      assert (exists pc' :: 0 <= pc' < 2 && SubFires(x, n, ch, w, t, r, c, pr, pc')) <==>
        SubFires(x, n, ch, w, t, r, c, pr, 0) || SubFires(x, n, ch, w, t, r, c, pr, 1);
    }
  }

  /** The innermost `for c:` loop: the pooled bits of output row `r`. */
  method PoolRow(x: Grid, n: nat, ch: nat, w: Kernel, t: int, r: int) returns (row: seq<Bit>)
    requires IsGrid(x, n, ch) && IsKernel(w)
    ensures |row| == n / 2
    ensures forall c :: 0 <= c < n / 2 ==> row[c] == PoolBit(x, n, ch, w, t, r, c)
  {
    row := [];
    for c := 0 to n / 2
      invariant |row| == c
      invariant forall c' :: 0 <= c' < c ==> row[c'] == PoolBit(x, n, ch, w, t, r, c')
    {
      var v := PoolAt(x, n, ch, w, t, r, c);
      row := row + [v];
    }
  }

  /** The whole stage as the scripts compute it: `for f: for r: for c:`. */
  method RunStage(x: Grid, n: nat, ch: nat, ws: seq<Kernel>, ts: seq<int>) returns (y: Planes)
    requires IsGrid(x, n, ch) && IsKernels(ws) && |ts| >= |ws|
    ensures y == Stage(x, n, ch, ws, ts)
  {
    ghost var spec := Stage(x, n, ch, ws, ts);
    y := [];
    for f := 0 to |ws|
      invariant y == spec[..f]
    {
      var plane := [];
      for r := 0 to n / 2
        invariant plane == spec[f][..r]
      {
        var row := PoolRow(x, n, ch, ws[f], ts[f], r);
        assert row == spec[f][r];
        plane := plane + [row];
      }
      assert plane == spec[f];
      y := y + [plane];
    }
  }

  // ---------------------------------------------------------------------
  // Properties of the engine
  // ---------------------------------------------------------------------

  /** A tap outside the input reads 0 on every channel, so it contributes all
      `ch` channels when its weight bit is 0 and nothing when it is 1. */
  lemma PaddedTap(x: Grid, n: nat, ch: nat, ir: int, ic: int, wb: Bit)
    requires IsGrid(x, n, ch)
    requires !(0 <= ir < n && 0 <= ic < n)
    ensures TapMatches(x, n, ch, ir, ic, wb) == if wb == 0 then ch else 0
  {
    DarkChannels(x, n, ch, ir, ic, wb, ch);
  }

  /** A tap that reads 0 on every channel matches exactly when its weight bit is 0. */
  lemma {:induction false} DarkChannels(x: Grid, n: nat, ch: nat, ir: int, ic: int, wb: Bit, upTo: nat)
    requires IsGrid(x, n, ch) && upTo <= ch
    requires forall k :: 0 <= k < ch ==> Tap(x, n, ch, ir, ic, k) == 0
    ensures ChannelMatches(x, n, ch, ir, ic, wb, upTo) == if wb == 0 then upTo else 0
  {
    if upTo > 0 {
      DarkChannels(x, n, ch, ir, ic, wb, upTo - 1);
    }
  }

  /** Number of zero weight bits in a kernel. */
  function KernelZeros(w: Kernel): (z: nat)
    requires IsKernel(w)
    ensures z <= 9
  {
    Count(w[0] + w[1] + w[2], 0)
  }

  predicate AllZero(x: Grid, n: nat, ch: nat)
    requires IsGrid(x, n, ch)
  {
    forall r, c, k :: 0 <= r < n && 0 <= c < n && 0 <= k < ch ==> x[r][c][k] == 0
  }

  /** Zero weight bits among the first `t` taps, in window order. */
  function ZeroTaps(w: Kernel, t: nat): nat
    requires IsKernel(w) && t <= 9
  {
    if t == 0 then 0 else ZeroTaps(w, t - 1) + IsZero(w[(t - 1) / 3][(t - 1) % 3])
  }

  function IsZero(b: Bit): nat {
    if b == 0 then 1 else 0
  }

  lemma Count3(s: seq<Bit>)
    requires |s| == 3
    ensures Count(s, 0) == IsZero(s[0]) + IsZero(s[1]) + IsZero(s[2])
  {
    var t := s[1..];
    var u := t[1..];
    assert t[0] == s[1] && u[0] == s[2] && |u[1..]| == 0;
    assert Count(u, 0) == IsZero(s[2]);
    assert Count(t, 0) == IsZero(s[1]) + Count(u, 0);
  }

  lemma KernelZerosByTaps(w: Kernel)
    requires IsKernel(w)
    ensures KernelZeros(w) == ZeroTaps(w, 9)
  {
    CountAppend(w[0] + w[1], w[2], 0);
    CountAppend(w[0], w[1], 0);
    Count3(w[0]);
    Count3(w[1]);
    Count3(w[2]);
    ZeroTapsRow(w, 0);
    ZeroTapsRow(w, 1);
    ZeroTapsRow(w, 2);
  }

  /** The three taps of kernel row `kr` are taps `3kr`, `3kr+1`, `3kr+2`. */
  lemma ZeroTapsRow(w: Kernel, kr: nat)
    requires IsKernel(w) && kr < 3
    ensures ZeroTaps(w, 3 * kr + 3) == ZeroTaps(w, 3 * kr) + IsZero(w[kr][0]) + IsZero(w[kr][1]) + IsZero(w[kr][2])
  {
    var t := 3 * kr;
    assert t / 3 == kr && t % 3 == 0;
    assert (t + 1) / 3 == kr && (t + 1) % 3 == 1;
    assert (t + 2) / 3 == kr && (t + 2) % 3 == 2;
    assert ZeroTaps(w, t + 1) == ZeroTaps(w, t) + IsZero(w[kr][0]);
    assert ZeroTaps(w, t + 2) == ZeroTaps(w, t + 1) + IsZero(w[kr][1]);
  }

  lemma Distribute(a: nat, b: nat, c: nat)
    ensures a * (b + c) == a * b + a * c
  {
  }

  /** With an all-zero input a tap matches on every channel or on none. */
  lemma DarkTap(x: Grid, n: nat, ch: nat, ir: int, ic: int, wb: Bit)
    requires IsGrid(x, n, ch) && AllZero(x, n, ch)
    ensures TapMatches(x, n, ch, ir, ic, wb) == ch * IsZero(wb)
  {
    assert forall k :: 0 <= k < ch ==> Tap(x, n, ch, ir, ic, k) == 0;
    DarkChannels(x, n, ch, ir, ic, wb, ch);
  }

  lemma {:induction false} DarkWindow(x: Grid, n: nat, ch: nat, w: Kernel, pr: int, pc: int, t: nat)
    requires IsGrid(x, n, ch) && IsKernel(w) && AllZero(x, n, ch) && t <= 9
    ensures WindowMatches(x, n, ch, w, pr, pc, t) == ch * ZeroTaps(w, t)
  {
    if t > 0 {
      DarkWindow(x, n, ch, w, pr, pc, t - 1);
      var kr, kc := (t - 1) / 3, (t - 1) % 3;
      var z := IsZero(w[kr][kc]);
      DarkTap(x, n, ch, pr + kr - 1, pc + kc - 1, w[kr][kc]);
      Distribute(ch, ZeroTaps(w, t - 1), z);
    }
  }

  /** With an all-zero input every tap, padded or not, reads 0: each window
      counts `ch` matches per zero weight bit, wherever it is placed. */
  lemma ZeroInputCount(x: Grid, n: nat, ch: nat, w: Kernel, pr: int, pc: int)
    requires IsGrid(x, n, ch) && IsKernel(w) && AllZero(x, n, ch)
    ensures ConvCount(x, n, ch, w, pr, pc) == ch * KernelZeros(w)
  {
    DarkWindow(x, n, ch, w, pr, pc, 9);
    KernelZerosByTaps(w);
  }

  /** On an all-zero input each output plane is constant: 1 everywhere iff the
      filter's zero-weight count (times `ch`) reaches its threshold. */
  lemma ZeroInputStage(x: Grid, n: nat, ch: nat, ws: seq<Kernel>, ts: seq<int>)
    requires IsGrid(x, n, ch) && IsKernels(ws) && |ts| >= |ws| && AllZero(x, n, ch)
    ensures forall f, r, c :: 0 <= f < |ws| && 0 <= r < n / 2 && 0 <= c < n / 2 ==>
              Stage(x, n, ch, ws, ts)[f][r][c] == if ch * KernelZeros(ws[f]) >= ts[f] then 1 else 0
  {
    var y := Stage(x, n, ch, ws, ts);
    forall f, r, c | 0 <= f < |ws| && 0 <= r < n / 2 && 0 <= c < n / 2
      ensures y[f][r][c] == if ch * KernelZeros(ws[f]) >= ts[f] then 1 else 0
    {
      assert y[f][r][c] == PoolBit(x, n, ch, ws[f], ts[f], r, c);
      ZeroInputCell(x, n, ch, ws[f], ts[f], r, c);
    }
  }

  /** On an all-zero input every pooled bit is the zero-weight test. */
  lemma ZeroInputCell(x: Grid, n: nat, ch: nat, w: Kernel, t: int, r: int, c: int)
    requires IsGrid(x, n, ch) && IsKernel(w) && AllZero(x, n, ch)
    ensures PoolBit(x, n, ch, w, t, r, c) == if ch * KernelZeros(w) >= t then 1 else 0
  {
    ZeroInputCount(x, n, ch, w, 2 * r, 2 * c);
    ZeroInputCount(x, n, ch, w, 2 * r, 2 * c + 1);
    ZeroInputCount(x, n, ch, w, 2 * r + 1, 2 * c);
    ZeroInputCount(x, n, ch, w, 2 * r + 1, 2 * c + 1);
  }

  /** Lowering a threshold never switches an output off: the comparison is `>=`. */
  lemma ThresholdMonotone(x: Grid, n: nat, ch: nat, ws: seq<Kernel>, ts: seq<int>, ts': seq<int>, f: nat, r: nat, c: nat)
    requires IsGrid(x, n, ch) && IsKernels(ws) && |ts| >= |ws| && |ts'| >= |ws|
    requires f < |ws| && r < n / 2 && c < n / 2
    requires ts'[f] <= ts[f]
    requires Stage(x, n, ch, ws, ts)[f][r][c] == 1
    ensures Stage(x, n, ch, ws, ts')[f][r][c] == 1
  {
    var pr, pc :| 0 <= pr < 2 && 0 <= pc < 2 && SubFires(x, n, ch, ws[f], ts[f], r, c, pr, pc);
    assert SubFires(x, n, ch, ws[f], ts'[f], r, c, pr, pc);
  }
}
