/** Layer one of the accelerator: a 28x28 binary image, eight 3x3 kernels of
    one bit per tap, one threshold per kernel, giving an 8 x 14 x 14 map
    indexed `[kernel][row][col]`. */
module LayerOne {
  import opened Errors
  import opened Bits
  import opened Sequences
  import opened Scatter
  import opened BinaryConv

  /** A 28x28 binary image indexed `[row][col]`. */
  type Image = seq<seq<Bit>>

  predicate IsImage(p: Image) {
    |p| == 28 && forall r :: 0 <= r < 28 ==> |p[r]| == 28
  }

  /** The image as a one-channel feature map. */
  function Lift(p: Image): (x: Grid)
    requires IsImage(p)
    ensures IsGrid(x, 28, 1)
    ensures forall r, c :: 0 <= r < 28 && 0 <= c < 28 ==> x[r][c] == [p[r][c]]
  {
    seq(28, r requires 0 <= r < 28 => seq(28, c requires 0 <= c < 28 => [p[r][c]]))
  }

  /** The pixel the window reads at `(i, j)`: the image inside, 0 outside. */
  function Pixel(p: Image, i: int, j: int): Bit
    requires IsImage(p)
  {
    if 0 <= i < 28 && 0 <= j < 28 then p[i][j] else 0
  }

  /** Agreement (XNOR) of each of the nine taps of the window centred on
      `(i, j)` with its weight, taps in row order. */
  function Agreements(p: Image, w: Kernel, i: int, j: int): (a: seq<Bit>)
    requires IsImage(p) && IsKernel(w)
    ensures |a| == 9
  {
    seq(9, t requires 0 <= t < 9 => if Pixel(p, i + t / 3 - 1, j + t % 3 - 1) == w[t / 3][t % 3] then 1 else 0)
  }

  /** `matches` of the reference loop: how many of the nine taps agree. */
  function Matches(p: Image, w: Kernel, i: int, j: int): (m: nat)
    requires IsImage(p) && IsKernel(w)
    ensures m <= 9
  {
    Popcount(Agreements(p, w, i, j))
  }

  /** Sub-position `(pr, pc)` of output `(r, c)` reaches threshold `t`. */
  predicate Fires(p: Image, w: Kernel, t: int, r: int, c: int, pr: int, pc: int)
    requires IsImage(p) && IsKernel(w)
  {
    Matches(p, w, 2 * r + pr, 2 * c + pc) >= t
  }

  /** The engine's per-window count on the lifted image is the number of
      agreeing taps. */
  lemma LiftedCount(p: Image, w: Kernel, i: int, j: int)
    requires IsImage(p) && IsKernel(w)
    ensures ConvCount(Lift(p), 28, 1, w, i, j) == Matches(p, w, i, j)
  {
    LiftedWindow(p, w, i, j, 9);
    assert Agreements(p, w, i, j)[..9] == Agreements(p, w, i, j);
  }

  lemma {:induction false} LiftedWindow(p: Image, w: Kernel, i: int, j: int, t: nat)
    requires IsImage(p) && IsKernel(w) && t <= 9
    ensures WindowMatches(Lift(p), 28, 1, w, i, j, t) == Popcount(Agreements(p, w, i, j)[..t])
  {
    var x := Lift(p);
    var a := Agreements(p, w, i, j);
    if t > 0 {
      LiftedWindow(p, w, i, j, t - 1);
      WindowUnfold(x, 28, 1, w, i, j, t);
      LiftedTap(p, w, i, j, t - 1);
      PopcountStep(a, t);
    } else {
      assert a[..0] == [];
    }
  }

  /** Tap `t` of the lifted image contributes its agreement bit. */
  lemma LiftedTap(p: Image, w: Kernel, i: int, j: int, t: nat)
    requires IsImage(p) && IsKernel(w) && t < 9
    ensures TapMatches(Lift(p), 28, 1, i + t / 3 - 1, j + t % 3 - 1, w[t / 3][t % 3]) == Agreements(p, w, i, j)[t]
  {
    var x := Lift(p);
    var ir, ic, wb := i + t / 3 - 1, j + t % 3 - 1, w[t / 3][t % 3];
    assert Tap(x, 28, 1, ir, ic, 0) == Pixel(p, ir, ic);
    assert TapMatches(x, 28, 1, ir, ic, wb) == ChannelMatches(x, 28, 1, ir, ic, wb, 1);
  }

  lemma LiftedFires(p: Image, w: Kernel, t: int)
    requires IsImage(p) && IsKernel(w)
    ensures forall r, c, pr, pc :: SubFires(Lift(p), 28, 1, w, t, r, c, pr, pc) <==> Fires(p, w, t, r, c, pr, pc)
  {
    forall r, c, pr, pc
      ensures SubFires(Lift(p), 28, 1, w, t, r, c, pr, pc) <==> Fires(p, w, t, r, c, pr, pc)
    {
      LiftedCount(p, w, 2 * r + pr, 2 * c + pc);
    }
  }

  predicate IsWeights(ws: seq<Kernel>) {
    |ws| == 8 && IsKernels(ws)
  }

  /** `run_layer_one`: output `[k][r][c]` is 1 iff one of the four windows
      under the pool cell has at least `ts[k]` taps agreeing with kernel `k`,
      taps outside the image reading 0. */
  function RunLayerOne(p: Image, ws: seq<Kernel>, ts: seq<int>): (out: Planes)
    requires IsImage(p) && IsWeights(ws) && |ts| >= 8
    ensures IsPlanes(out, 8, 14)
    ensures forall k, r, c :: 0 <= k < 8 && 0 <= r < 14 && 0 <= c < 14 ==>
              (out[k][r][c] == 1 <==> exists pr, pc :: 0 <= pr < 2 && 0 <= pc < 2 && Fires(p, ws[k], ts[k], r, c, pr, pc))
  {
    LayerOneFires(p, ws, ts);
    Stage(Lift(p), 28, 1, ws, ts)
  }

  lemma LayerOneFires(p: Image, ws: seq<Kernel>, ts: seq<int>)
    requires IsImage(p) && IsWeights(ws) && |ts| >= 8
    ensures forall k, r, c :: 0 <= k < 8 && 0 <= r < 14 && 0 <= c < 14 ==>
              (Stage(Lift(p), 28, 1, ws, ts)[k][r][c] == 1 <==>
                 exists pr, pc :: 0 <= pr < 2 && 0 <= pc < 2 && Fires(p, ws[k], ts[k], r, c, pr, pc))
  {
    forall k | 0 <= k < 8 {
      LiftedFires(p, ws[k], ts[k]);
    }
  }

  /** Lowering a kernel's threshold never turns an output bit off. */
  lemma LayerOneMonotone(p: Image, ws: seq<Kernel>, ts: seq<int>, ts': seq<int>, k: nat, r: nat, c: nat)
    requires IsImage(p) && IsWeights(ws) && |ts| >= 8 && |ts'| >= 8
    requires k < 8 && r < 14 && c < 14 && ts'[k] <= ts[k]
    requires RunLayerOne(p, ws, ts)[k][r][c] == 1
    ensures RunLayerOne(p, ws, ts')[k][r][c] == 1
  {
    var pr, pc :| 0 <= pr < 2 && 0 <= pc < 2 && Fires(p, ws[k], ts[k], r, c, pr, pc);
    assert Fires(p, ws[k], ts'[k], r, c, pr, pc);
  }

  /** The channels-last copy `out[r, c, k]` that the layer-two generator
      builds and feeds to layer two. */
  function ChannelsLast(y: Planes): (x: Grid)
    requires IsPlanes(y, 8, 14)
    ensures IsGrid(x, 14, 8)
    ensures forall r, c, k :: 0 <= r < 14 && 0 <= c < 14 && 0 <= k < 8 ==> x[r][c][k] == y[k][r][c]
  {
    assert IsBox3(y, 8, 14, 14);
    Permute(y, FirstToLast, 8, 14, 14)
  }

  /** Number of set output bits (`np.sum(expected)`). */
  function Active(y: Planes): (n: nat)
    requires IsPlanes(y, 8, 14)
    ensures n <= 1568
  {
    assert IsBox3(y, 8, 14, 14);
    Flatten3Length(y, 8, 14, 14);
    Popcount(Flatten3(y))
  }

  /** No output bit is set exactly when the count of active outputs is zero. */
  lemma ActiveZero(y: Planes)
    requires IsPlanes(y, 8, 14)
    ensures Active(y) == 0 <==> forall k, r, c :: 0 <= k < 8 && 0 <= r < 14 && 0 <= c < 14 ==> y[k][r][c] == 0
  {
    assert IsBox3(y, 8, 14, 14);
    var s := Flatten3(y);
    PopcountZero(s);
    Flatten3Index(y, 8, 14, 14);
    Flatten3At(y, 8, 14, 14);
  }

  /** Every output bit is set exactly when the active count is 1568. */
  lemma ActiveFull(y: Planes)
    requires IsPlanes(y, 8, 14)
    ensures Active(y) == 1568 <==> forall k, r, c :: 0 <= k < 8 && 0 <= r < 14 && 0 <= c < 14 ==> y[k][r][c] == 1
  {
    assert IsBox3(y, 8, 14, 14);
    PopcountFull(Flatten3(y));
    Flatten3Index(y, 8, 14, 14);
    Flatten3At(y, 8, 14, 14);
  }

  // ---------------------------------------------------------------------
  // The fixed-threshold variant used with hand-made inputs
  // ---------------------------------------------------------------------

  /** `5 + (w & 1)`: 5 for even kernels and 6 for odd ones. */
  function FixedThreshold(w: nat): (t: nat)
    requires w < 8
    ensures t == if w % 2 == 0 then 5 else 6
  {
    5 + ((w as bv8) & 1) as int
  }

  function FixedThresholds(): (ts: seq<int>)
    ensures |ts| == 8 && forall w :: 0 <= w < 8 ==> ts[w] == FixedThreshold(w)
  {
    seq(8, w requires 0 <= w < 8 => FixedThreshold(w))
  }

  /** Tap-major weights `[kr][kc][w]`, as `binary_conv_pooling` takes them. */
  predicate IsTapWeights(wt: seq<seq<seq<Bit>>>) {
    IsBox3(wt, 3, 3, 8)
  }

  /** Kernel `w` of tap-major weights. */
  function KernelsOf(wt: seq<seq<seq<Bit>>>): (ws: seq<Kernel>)
    requires IsTapWeights(wt)
    ensures IsWeights(ws)
    ensures forall w, kr, kc :: 0 <= w < 8 && 0 <= kr < 3 && 0 <= kc < 3 ==> ws[w][kr][kc] == wt[kr][kc][w]
  {
    Permute(wt, LastToFirst, 3, 3, 8)
  }

  /** `binary_conv_pooling`: layer one with kernel `w` read from `wt[., ., w]`
      and threshold 5 for even `w`, 6 for odd `w`. */
  function BinaryConvPooling(p: Image, wt: seq<seq<seq<Bit>>>): (out: Planes)
    requires IsImage(p) && IsTapWeights(wt)
    ensures IsPlanes(out, 8, 14)
    ensures forall w, r, c :: 0 <= w < 8 && 0 <= r < 14 && 0 <= c < 14 ==>
              (out[w][r][c] == 1 <==>
                 exists pr, pc :: 0 <= pr < 2 && 0 <= pc < 2 && Fires(p, KernelsOf(wt)[w], FixedThreshold(w), r, c, pr, pc))
  {
    RunLayerOne(p, KernelsOf(wt), FixedThresholds())
  }

  /** The all-zero test image. */
  function Zeros(): (p: Image)
    ensures IsImage(p)
    ensures forall r, c :: 0 <= r < 28 && 0 <= c < 28 ==> p[r][c] == 0
  {
    seq(28, r => seq(28, c => 0))
  }

  /** Consecutive entries differ. */
  predicate Alternating(s: seq<Bit>) {
    forall i :: 0 <= i < |s| - 1 ==> s[i] != s[i + 1]
  }

  /** The rows differ in every column. */
  predicate Opposite(a: seq<Bit>, b: seq<Bit>) {
    |a| == |b| && forall i :: 0 <= i < |a| ==> a[i] != b[i]
  }

  /** The checkerboard test image, `pixel(r, c) = (r + c) mod 2`: it starts
      with 0 and horizontally and vertically adjacent pixels always differ. */
  function Checkerboard(): (p: Image)
    ensures IsImage(p) && p[0][0] == 0
    ensures forall r :: 0 <= r < 28 ==> Alternating(p[r])
    ensures forall r :: 0 <= r < 27 ==> Opposite(p[r], p[r + 1])
  {
    seq(28, r requires 0 <= r < 28 => seq(28, c requires 0 <= c < 28 => (r + c) % 2))
  }

  /** On the all-zero image (padded taps read 0 as well) kernel `k`'s output
      is the same at every position: 1 iff the kernel has at least `ts[k]`
      zero weight bits. */
  lemma ZeroImage(ws: seq<Kernel>, ts: seq<int>)
    requires IsWeights(ws) && |ts| >= 8
    ensures forall k, r, c :: 0 <= k < 8 && 0 <= r < 14 && 0 <= c < 14 ==>
              RunLayerOne(Zeros(), ws, ts)[k][r][c] == if KernelZeros(ws[k]) >= ts[k] then 1 else 0
  {
    var x := Lift(Zeros());
    assert AllZero(x, 28, 1);
    ZeroInputStage(x, 28, 1, ws, ts);
  }

  /** The same for `binary_conv_pooling`: even kernels fire everywhere iff
      they have at least 5 zero bits, odd kernels iff at least 6. */
  lemma ZeroImageFixed(wt: seq<seq<seq<Bit>>>)
    requires IsTapWeights(wt)
    ensures forall w, r, c :: 0 <= w < 8 && 0 <= r < 14 && 0 <= c < 14 ==>
              BinaryConvPooling(Zeros(), wt)[w][r][c] ==
                if KernelZeros(KernelsOf(wt)[w]) >= FixedThreshold(w) then 1 else 0
  {
    ZeroImage(KernelsOf(wt), FixedThresholds());
  }

  // ---------------------------------------------------------------------
  // Text patterns
  // ---------------------------------------------------------------------

  /** Slot `p` of the `int(PATTERN[r][c])` loop, visited in row-major
      order: a missing row or column is an `IndexError`, any character
      other than '0'/'1' a `ValueError`. */
  function PixelSlot(rows: seq<string>, p: nat): Result<Bit> {
    var r := p / 28;
    var c := p % 28;
    if r >= |rows| || c >= |rows[r]| then Err(IndexOutOfRange)
    else if !IsBitChar(rows[r][c]) then Err(BadDigit)
    else Ok(CharBit(rows[r][c]))
  }

  /** The 784 slots of the pixel loop, in the order the loop visits them. */
  function PixelSlots(rows: seq<string>): seq<Result<Bit>> {
    seq(784, p requires 0 <= p < 784 => PixelSlot(rows, p))
  }

  lemma PixelSlotAt(rows: seq<string>, r: nat, c: nat)
    requires r < 28 && c < 28
    ensures 28 * r + c < 784 && PixelSlots(rows)[28 * r + c] == PixelSlot(rows, 28 * r + c)
    ensures (28 * r + c) / 28 == r && (28 * r + c) % 28 == c
  {
    Layout.DivModOf(r, 28, c);
  }

  /** A pattern whose every slot succeeds is complete and made of bit
      characters, and each slot holds its character's bit. */
  lemma PixelSlotsAllOk(rows: seq<string>)
    requires forall p :: 0 <= p < 784 ==> PixelSlots(rows)[p].Ok?
    ensures |rows| >= 28
    ensures forall r :: 0 <= r < 28 ==> |rows[r]| >= 28
    ensures forall r, c :: 0 <= r < 28 && 0 <= c < 28 ==>
              IsBitChar(rows[r][c]) && PixelSlots(rows)[28 * r + c] == Ok(CharBit(rows[r][c]))
  {
    forall r, c | 0 <= r < 28 && 0 <= c < 28
      ensures r < |rows| && c < |rows[r]| && IsBitChar(rows[r][c])
              && PixelSlots(rows)[28 * r + c] == Ok(CharBit(rows[r][c]))
    {
      PixelSlotAt(rows, r, c);
    }
    PixelSlotAt(rows, 27, 0);
    forall r | 0 <= r < 28 ensures |rows[r]| >= 28 {
      PixelSlotAt(rows, r, 27);
    }
  }

  /** A complete pattern of bit characters fails at no slot. */
  lemma PixelSlotsAllOkIf(rows: seq<string>)
    requires |rows| >= 28
    requires forall r :: 0 <= r < 28 ==> |rows[r]| >= 28
    requires forall r, c :: 0 <= r < 28 && 0 <= c < 28 ==> IsBitChar(rows[r][c])
    ensures forall p :: 0 <= p < 784 ==> PixelSlots(rows)[p].Ok?
  {
    forall p | 0 <= p < 784 ensures PixelSlots(rows)[p].Ok? {
      var r, c := p / 28, p % 28;
      assert p == 28 * r + c;
      PixelSlotAt(rows, r, c);
    }
  }

  /** Every slot of the pixel loop succeeds iff the pattern is complete and
      made of bit characters; each slot then holds its character's bit. */
  lemma PixelSlotsOk(rows: seq<string>)
    ensures (forall p :: 0 <= p < 784 ==> PixelSlots(rows)[p].Ok?) <==>
              (|rows| >= 28
               && (forall r :: 0 <= r < 28 ==> |rows[r]| >= 28)
               && (forall r, c :: 0 <= r < 28 && 0 <= c < 28 ==> IsBitChar(rows[r][c])))
    ensures (forall p :: 0 <= p < 784 ==> PixelSlots(rows)[p].Ok?) ==>
              forall r, c :: 0 <= r < 28 && 0 <= c < 28 ==>
                PixelSlots(rows)[28 * r + c] == Ok(CharBit(rows[r][c]))
  {
    if forall p :: 0 <= p < 784 ==> PixelSlots(rows)[p].Ok? {
      PixelSlotsAllOk(rows);
    }
    if |rows| >= 28
       && (forall r :: 0 <= r < 28 ==> |rows[r]| >= 28)
       && (forall r, c :: 0 <= r < 28 && 0 <= c < 28 ==> IsBitChar(rows[r][c])) {
      PixelSlotsAllOkIf(rows);
    }
  }

  /** The `int(PATTERN[r][c])` loop over a 28-row pattern of '0'/'1' text:
      rows beyond 28 and characters beyond 28 are never read; a missing
      row or column stops the script, and so does any other character,
      whichever the row-major scan reaches first. */
  function ParseImage(rows: seq<string>): (res: Result<Image>)
    ensures res.Ok? <==>
              |rows| >= 28
              && (forall r :: 0 <= r < 28 ==> |rows[r]| >= 28)
              && (forall r, c :: 0 <= r < 28 && 0 <= c < 28 ==> IsBitChar(rows[r][c]))
    ensures res.Ok? ==> (IsImage(res.value)
                         && forall r, c :: 0 <= r < 28 && 0 <= c < 28 ==> BitChar(res.value[r][c]) == rows[r][c])
    ensures res.Err? ==> FirstError(PixelSlots(rows), res.error)
  {
    PixelSlotsOk(rows);
    match Collect(PixelSlots(rows))
    case Err(e) => CollectError(PixelSlots(rows)); Err(e)
    case Ok(v) => Ok(seq(28, r requires 0 <= r < 28 => seq(28, c requires 0 <= c < 28 => v[28 * r + c])))
  }

  /** Slot `p` of the `int(TEST_WEIGHTS_MNIST[r][c][w])` loop, visited with
      `w` fastest and `r` slowest. */
  function TapSlot(table: seq<seq<string>>, p: nat): Result<Bit> {
    var r := p / 24;
    var c := p % 24 / 8;
    var w := p % 8;
    if r >= |table| || c >= |table[r]| || w >= |table[r][c]| then Err(IndexOutOfRange)
    else if !IsBitChar(table[r][c][w]) then Err(BadDigit)
    else Ok(CharBit(table[r][c][w]))
  }

  /** The 72 slots of the tap-weight loop, in the order the loop visits them. */
  function TapSlots(table: seq<seq<string>>): seq<Result<Bit>> {
    seq(72, p requires 0 <= p < 72 => TapSlot(table, p))
  }

  lemma TapSlotAt(table: seq<seq<string>>, r: nat, c: nat, w: nat)
    requires r < 3 && c < 3 && w < 8
    ensures 24 * r + 8 * c + w < 72
    ensures TapSlots(table)[24 * r + 8 * c + w] == TapSlot(table, 24 * r + 8 * c + w)
    ensures (24 * r + 8 * c + w) / 24 == r && (24 * r + 8 * c + w) % 24 / 8 == c
    ensures (24 * r + 8 * c + w) % 8 == w
  {
    Layout.DivModOf(r, 24, 8 * c + w);
    Layout.DivModOf(c, 8, w);
    Layout.DivModOf(3 * r + c, 8, w);
  }

  /** A table whose every slot succeeds is complete and made of bit
      characters, and each slot holds its character's bit. */
  lemma TapSlotsAllOk(table: seq<seq<string>>)
    requires forall p :: 0 <= p < 72 ==> TapSlots(table)[p].Ok?
    ensures |table| >= 3
    ensures forall r :: 0 <= r < 3 ==> |table[r]| >= 3
    ensures forall r, c :: 0 <= r < 3 && 0 <= c < 3 ==> |table[r][c]| >= 8
    ensures forall r, c, w :: 0 <= r < 3 && 0 <= c < 3 && 0 <= w < 8 ==>
              IsBitChar(table[r][c][w]) && TapSlots(table)[24 * r + 8 * c + w] == Ok(CharBit(table[r][c][w]))
  {
    forall r, c, w | 0 <= r < 3 && 0 <= c < 3 && 0 <= w < 8
      ensures r < |table| && c < |table[r]| && w < |table[r][c]| && IsBitChar(table[r][c][w])
              && TapSlots(table)[24 * r + 8 * c + w] == Ok(CharBit(table[r][c][w]))
    {
      TapSlotAt(table, r, c, w);
    }
    TapSlotAt(table, 2, 0, 0);
    forall r | 0 <= r < 3 ensures |table[r]| >= 3 {
      TapSlotAt(table, r, 2, 0);
    }
    forall r, c | 0 <= r < 3 && 0 <= c < 3 ensures |table[r][c]| >= 8 {
      TapSlotAt(table, r, c, 7);
    }
  }

  /** A complete table of bit characters fails at no slot. */
  lemma TapSlotsAllOkIf(table: seq<seq<string>>)
    requires |table| >= 3
    requires forall r :: 0 <= r < 3 ==> |table[r]| >= 3
    requires forall r, c :: 0 <= r < 3 && 0 <= c < 3 ==> |table[r][c]| >= 8
    requires forall r, c, w :: 0 <= r < 3 && 0 <= c < 3 && 0 <= w < 8 ==> IsBitChar(table[r][c][w])
    ensures forall p :: 0 <= p < 72 ==> TapSlots(table)[p].Ok?
  {
    forall p | 0 <= p < 72 ensures TapSlots(table)[p].Ok? {
      var r, c, w := p / 24, p % 24 / 8, p % 8;
      assert p == 24 * r + 8 * c + w;
      TapSlotAt(table, r, c, w);
    }
  }

  /** Every slot of the tap-weight loop succeeds iff the table is complete
      and made of bit characters; each slot then holds its character's bit. */
  lemma TapSlotsOk(table: seq<seq<string>>)
    ensures (forall p :: 0 <= p < 72 ==> TapSlots(table)[p].Ok?) <==>
              (|table| >= 3
               && (forall r :: 0 <= r < 3 ==> |table[r]| >= 3)
               && (forall r, c :: 0 <= r < 3 && 0 <= c < 3 ==> |table[r][c]| >= 8)
               && (forall r, c, w :: 0 <= r < 3 && 0 <= c < 3 && 0 <= w < 8 ==> IsBitChar(table[r][c][w])))
    ensures (forall p :: 0 <= p < 72 ==> TapSlots(table)[p].Ok?) ==>
              forall r, c, w :: 0 <= r < 3 && 0 <= c < 3 && 0 <= w < 8 ==>
                TapSlots(table)[24 * r + 8 * c + w] == Ok(CharBit(table[r][c][w]))
  {
    if forall p :: 0 <= p < 72 ==> TapSlots(table)[p].Ok? {
      TapSlotsAllOk(table);
    }
    if |table| >= 3
       && (forall r :: 0 <= r < 3 ==> |table[r]| >= 3)
       && (forall r, c :: 0 <= r < 3 && 0 <= c < 3 ==> |table[r][c]| >= 8)
       && (forall r, c, w :: 0 <= r < 3 && 0 <= c < 3 && 0 <= w < 8 ==> IsBitChar(table[r][c][w])) {
      TapSlotsAllOkIf(table);
    }
  }

  /** The `int(TEST_WEIGHTS_MNIST[r][c][w])` loop: a 3x3 table of 8-character
      strings, character `w` of entry `[r][c]` becoming `wt[r][c][w]`; the
      first missing entry or bad character in scan order stops it. */
  function ParseTapWeights(table: seq<seq<string>>): (res: Result<seq<seq<seq<Bit>>>>)
    ensures res.Ok? <==>
              |table| >= 3
              && (forall r :: 0 <= r < 3 ==> |table[r]| >= 3)
              && (forall r, c :: 0 <= r < 3 && 0 <= c < 3 ==> |table[r][c]| >= 8)
              && (forall r, c, w :: 0 <= r < 3 && 0 <= c < 3 && 0 <= w < 8 ==> IsBitChar(table[r][c][w]))
    ensures res.Ok? ==> (IsTapWeights(res.value)
                         && forall r, c, w :: 0 <= r < 3 && 0 <= c < 3 && 0 <= w < 8 ==>
                              BitChar(res.value[r][c][w]) == table[r][c][w])
    ensures res.Err? ==> FirstError(TapSlots(table), res.error)
  {
    TapSlotsOk(table);
    match Collect(TapSlots(table))
    case Err(e) => CollectError(TapSlots(table)); Err(e)
    case Ok(v) => Ok(TapsOf(v))
  }

  /** The 72 bits of the tap-weight loop, regrouped as `[r][c][w]`. */
  function TapsOf(v: seq<Bit>): (wt: seq<seq<seq<Bit>>>)
    requires |v| == 72
    ensures IsTapWeights(wt)
    ensures forall r, c, w :: 0 <= r < 3 && 0 <= c < 3 && 0 <= w < 8 ==> wt[r][c][w] == v[24 * r + 8 * c + w]
  {
    seq(3, r requires 0 <= r < 3 => seq(3, c requires 0 <= c < 3 =>
      seq(8, w requires 0 <= w < 8 => v[24 * r + 8 * c + w])))
  }
}
