/** The bit layouts that connect the reference model to the hardware ports.
    A Verilog literal `N'b...` is written most significant bit first, so bit
    `b` of a literal `s` is the character `s[|s| - 1 - b]`; every packer
    below builds a flat list indexed by hardware bit number and then
    reverses it (or, for the layer-two packers, walks the indices downwards). */
module VerilogPack {
  import opened Errors
  import opened Bits
  import opened Layout
  import opened Sequences
  import opened Scatter
  import opened BinaryConv
  import LayerOne
  import LayerTwo

  /** Bit `b` of a literal written MSB first. */
  function LiteralBit<T>(s: seq<T>, b: nat): T
    requires b < |s|
  {
    s[|s| - 1 - b]
  }

  /** `str(...)` of every element of a box of bits. */
  function Chars(x: seq<seq<seq<Bit>>>): (y: seq<seq<seq<char>>>)
    ensures |y| == |x|
    ensures forall a :: 0 <= a < |x| ==> |y[a]| == |x[a]|
    ensures forall a, b :: 0 <= a < |x| && 0 <= b < |x[a]| ==> |y[a][b]| == |x[a][b]|
    ensures forall a, b, c :: 0 <= a < |x| && 0 <= b < |x[a]| && 0 <= c < |x[a][b]| ==>
              y[a][b][c] == BitChar(x[a][b][c])
  {
    seq(|x|, a requires 0 <= a < |x| => seq(|x[a]|, b requires 0 <= b < |x[a]| =>
      seq(|x[a][b]|, c requires 0 <= c < |x[a][b]| => BitChar(x[a][b][c]))))
  }

  lemma CharsBox(x: seq<seq<seq<Bit>>>, d0: nat, d1: nat, d2: nat)
    requires IsBox3(x, d0, d1, d2)
    ensures IsBox3(Chars(x), d0, d1, d2)
  {
  }

  /** `arr = [fill] * N`, the loop nest's assignments, then `arr[::-1]`. */
  function Pack<T>(x: seq<seq<seq<T>>>, o: Order, d0: nat, d1: nat, d2: nat, fill: T): (s: seq<T>)
    requires IsBox3(x, d0, d1, d2)
    ensures |s| == d0 * d1 * d2
  {
    Reverse(ScatterPack(x, o, d0, d1, d2, fill))
  }

  /** Element `[a][b][c]` of the source is bit `Target(a, b, c)` of the packed literal. */
  lemma PackAt<T>(x: seq<seq<seq<T>>>, o: Order, d0: nat, d1: nat, d2: nat, fill: T, a: nat, b: nat, c: nat)
    requires IsBox3(x, d0, d1, d2) && a < d0 && b < d1 && c < d2
    ensures Target(o, a, b, c, d0, d1, d2) < d0 * d1 * d2
    ensures LiteralBit(Pack(x, o, d0, d1, d2, fill), Target(o, a, b, c, d0, d1, d2)) == x[a][b][c]
  {
    TargetInBox(o, a, b, c, d0, d1, d2);
    ScatterPackIsFlatten(x, o, d0, d1, d2, fill);
    var y := Permute(x, o, d0, d1, d2);
    var (e0, e1, e2) := Dims(o, d0, d1, d2);
    var (i, j, k) := Perm(o, a, b, c);
    assert i < e0 && j < e1 && k < e2;
    Flatten3IndexAt(y, e0, e1, e2, i, j, k);
  }

  /** With the source order kept, element `[a][b][c]` is bit `Idx3(a, b, c)`. */
  lemma SamePackAt<T>(x: seq<seq<seq<T>>>, d0: nat, d1: nat, d2: nat, fill: T, a: nat, b: nat, c: nat)
    requires IsBox3(x, d0, d1, d2) && a < d0 && b < d1 && c < d2
    ensures Idx3(a, b, c, d1, d2) < |Pack(x, SameOrder, d0, d1, d2, fill)|
    ensures LiteralBit(Pack(x, SameOrder, d0, d1, d2, fill), Idx3(a, b, c, d1, d2)) == x[a][b][c]
  {
    PackAt(x, SameOrder, d0, d1, d2, fill, a, b, c);
  }

  /** With the first index moved last, element `[a][b][c]` is bit `Idx3(b, c, a)`. */
  lemma FirstToLastPackAt<T>(x: seq<seq<seq<T>>>, d0: nat, d1: nat, d2: nat, fill: T, a: nat, b: nat, c: nat)
    requires IsBox3(x, d0, d1, d2) && a < d0 && b < d1 && c < d2
    ensures Idx3(b, c, a, d2, d0) < |Pack(x, FirstToLast, d0, d1, d2, fill)|
    ensures LiteralBit(Pack(x, FirstToLast, d0, d1, d2, fill), Idx3(b, c, a, d2, d0)) == x[a][b][c]
  {
    PackAt(x, FirstToLast, d0, d1, d2, fill, a, b, c);
  }

  /** With the last index moved first, element `[a][b][c]` is bit `Idx3(c, a, b)`. */
  lemma LastToFirstPackAt<T>(x: seq<seq<seq<T>>>, d0: nat, d1: nat, d2: nat, fill: T, a: nat, b: nat, c: nat)
    requires IsBox3(x, d0, d1, d2) && a < d0 && b < d1 && c < d2
    ensures Idx3(c, a, b, d0, d1) < |Pack(x, LastToFirst, d0, d1, d2, fill)|
    ensures LiteralBit(Pack(x, LastToFirst, d0, d1, d2, fill), Idx3(c, a, b, d0, d1)) == x[a][b][c]
  {
    PackAt(x, LastToFirst, d0, d1, d2, fill, a, b, c);
  }

  /** The tap-major position `Idx3(r, c, w)` of a 3x3x8 box is the weight bit number. */
  lemma TapIdx(r: nat, c: nat, w: nat)
    ensures Idx3(r, c, w, 3, 8) == WeightIdx(w, r, c)
  {
    assert (r * 3 + c) * 8 == r * 24 + c * 8;
  }

  /** Two literals of the same box size that agree on every bit `Idx3(a, b, c)` are equal. */
  lemma LiteralsEqual<T>(s: seq<T>, t: seq<T>, d0: nat, d1: nat, d2: nat)
    requires |s| == d0 * d1 * d2 && |t| == d0 * d1 * d2 && d1 > 0 && d2 > 0
    requires forall a, b, c :: 0 <= a < d0 && 0 <= b < d1 && 0 <= c < d2 ==>
               Idx3(a, b, c, d1, d2) < |s| && LiteralBit(s, Idx3(a, b, c, d1, d2)) == LiteralBit(t, Idx3(a, b, c, d1, d2))
    ensures s == t
  {
    forall p | 0 <= p < |s|
      ensures s[p] == t[p]
    {
      var q := |s| - 1 - p;
      Idx3Coords(q, d0, d1, d2);
      var a, b, c := Hi(q, d1, d2), Mid(q, d1, d2), Lo(q, d2);
      assert LiteralBit(s, Idx3(a, b, c, d1, d2)) == LiteralBit(t, Idx3(a, b, c, d1, d2));
    }
  }

  // ---------------------------------------------------------------------
  // Layer one: flat `[783:0]`, `[71:0]` and `[1567:0]` ports
  // ---------------------------------------------------------------------

  /** `pixels_to_verilog`: the row-major string of the image, reversed. */
  function PixelsToVerilog(p: LayerOne.Image): (s: string)
    requires LayerOne.IsImage(p)
    ensures |s| == 784
  {
    var rows := seq(28, r requires 0 <= r < 28 => seq(28, c requires 0 <= c < 28 => BitChar(p[r][c])));
    ConcatRectLength(rows, 28);
    Reverse(Concat(rows))
  }

  /** Pixel `(r, c)` is bit `28r + c` of the pixel port. */
  lemma PixelsToVerilogAt(p: LayerOne.Image, r: nat, c: nat)
    requires LayerOne.IsImage(p) && r < 28 && c < 28
    ensures 28 * r + c < 784
    ensures LiteralBit(PixelsToVerilog(p), 28 * r + c) == BitChar(p[r][c])
  {
    var rows := seq(28, r requires 0 <= r < 28 => seq(28, c requires 0 <= c < 28 => BitChar(p[r][c])));
    ConcatRectAt(rows, 28, r, c);
  }

  /** The hardware weight bit number of tap `(r, c)` of kernel `k`. */
  function WeightIdx(k: nat, r: nat, c: nat): nat {
    r * 24 + c * 8 + k
  }

  /** `weights_to_verilog`: kernels `[k][r][c]` scattered to `r*24 + c*8 + k`, reversed. */
  function WeightsToVerilog(ws: seq<Kernel>): (s: string)
    requires LayerOne.IsWeights(ws)
    ensures |s| == 72
  {
    CharsBox(ws, 8, 3, 3);
    Pack(Chars(ws), FirstToLast, 8, 3, 3, '0')
  }

  lemma WeightsToVerilogAt(ws: seq<Kernel>, k: nat, r: nat, c: nat)
    requires LayerOne.IsWeights(ws) && k < 8 && r < 3 && c < 3
    ensures WeightIdx(k, r, c) < 72
    ensures LiteralBit(WeightsToVerilog(ws), WeightIdx(k, r, c)) == BitChar(ws[k][r][c])
  {
    CharsBox(ws, 8, 3, 3);
    FirstToLastPackAt(Chars(ws), 8, 3, 3, '0', k, r, c);
    TapIdx(r, c, k);
  }

  /** The emitted testbench function `out_idx(k, r, c)`. */
  function OutIdx(k: nat, r: nat, c: nat): nat {
    k * 196 + r * 14 + c
  }

  /** `output_to_verilog`: output `[k][r][c]` scattered to `k*196 + r*14 + c`, reversed. */
  function OutputToVerilog(o: Planes): (s: string)
    requires IsPlanes(o, 8, 14)
    ensures |s| == 1568
  {
    CharsBox(o, 8, 14, 14);
    Pack(Chars(o), SameOrder, 8, 14, 14, '0')
  }

  /** Output `(k, r, c)` is bit `out_idx(k, r, c)` of the packed literal, the
      bit the testbench compares against the hardware. */
  lemma OutputToVerilogAt(o: Planes, k: nat, r: nat, c: nat)
    requires IsPlanes(o, 8, 14) && k < 8 && r < 14 && c < 14
    ensures OutIdx(k, r, c) < 1568
    ensures LiteralBit(OutputToVerilog(o), OutIdx(k, r, c)) == BitChar(o[k][r][c])
  {
    CharsBox(o, 8, 14, 14);
    SamePackAt(Chars(o), 8, 14, 14, '0', k, r, c);
    OutPos(k, r, c);
  }

  /** The row-major position `Idx3(k, r, c)` of an 8x14x14 box is `out_idx(k, r, c)`. */
  lemma OutPos(k: nat, r: nat, c: nat)
    ensures Idx3(k, r, c, 14, 14) == OutIdx(k, r, c)
  {
    assert (k * 14 + r) * 14 == k * 196 + r * 14;
  }

  /** Slot `p` of the `verilog_to_output` loop, which visits the literal's
      bits `k*196 + r*14 + c` in ascending order: past the string's start it
      is an `IndexError`, any character other than '0'/'1' a `ValueError`. */
  function OutSlot(s: string, p: nat): Result<Bit> {
    if p >= |s| then Err(IndexOutOfRange)
    else if !IsBitChar(LiteralBit(s, p)) then Err(BadDigit)
    else Ok(CharBit(LiteralBit(s, p)))
  }

  /** The 1568 slots of the decoding loop, in the order the loop visits them. */
  function OutSlots(s: string): seq<Result<Bit>> {
    seq(1568, p requires 0 <= p < 1568 => OutSlot(s, p))
  }

  /** Every slot of the decoding loop succeeds iff the last 1568 characters
      are bit characters. */
  lemma OutSlotsOk(s: string)
    ensures (forall p :: 0 <= p < 1568 ==> OutSlots(s)[p].Ok?) <==>
              |s| >= 1568 && forall b :: 0 <= b < 1568 ==> IsBitChar(LiteralBit(s, b))
  {
    if forall p :: 0 <= p < 1568 ==> OutSlots(s)[p].Ok? {
      assert OutSlots(s)[1567].Ok?;
      forall b | 0 <= b < 1568 ensures IsBitChar(LiteralBit(s, b)) {
        assert OutSlots(s)[b].Ok?;
      }
    }
    if |s| >= 1568 && forall b :: 0 <= b < 1568 ==> IsBitChar(LiteralBit(s, b)) {
      forall p | 0 <= p < 1568 ensures OutSlots(s)[p].Ok? {
        assert OutSlots(s)[p] == OutSlot(s, p);
      }
    }
  }

  /** The fault the decoding loop meets first: a bad character among those
      it reaches, otherwise the end of a short string. */
  lemma OutSlotsError(s: string, e: Error)
    requires FirstError(OutSlots(s), e)
    ensures e == if exists b :: 0 <= b < |s| && b < 1568 && !IsBitChar(LiteralBit(s, b)) then BadDigit
                 else IndexOutOfRange
  {
    var k :| 0 <= k < 1568 && OutSlots(s)[k].Err? && OutSlots(s)[k].error == e
             && forall j :: 0 <= j < k ==> OutSlots(s)[j].Ok?;
    if e == IndexOutOfRange {
      forall b | 0 <= b < |s| && b < 1568 ensures IsBitChar(LiteralBit(s, b)) {
        assert OutSlots(s)[b].Ok?;
      }
    }
  }

  /** The 1568 decoded bits, regrouped as `[k][r][c]`. */
  function PlanesOf(v: seq<Bit>): (o: Planes)
    requires |v| == 1568
    ensures IsPlanes(o, 8, 14)
    ensures forall k, r, c :: 0 <= k < 8 && 0 <= r < 14 && 0 <= c < 14 ==> o[k][r][c] == v[OutIdx(k, r, c)]
  {
    seq(8, k requires 0 <= k < 8 => seq(14, r requires 0 <= r < 14 => seq(14, c requires 0 <= c < 14 =>
      v[OutIdx(k, r, c)])))
  }

  /** `verilog_to_output`: reverse the string and read bit `k*196 + r*14 + c`
      into `[k][r][c]`.  Only the last 1568 characters are read; a shorter
      string, or a character other than '0'/'1' among them, stops the script,
      with the fault the ascending scan meets first. */
  function VerilogToOutput(s: string): (res: Result<Planes>)
    ensures res.Ok? <==> |s| >= 1568 && forall b :: 0 <= b < 1568 ==> IsBitChar(LiteralBit(s, b))
    ensures res.Ok? ==> IsPlanes(res.value, 8, 14)
    ensures res.Ok? ==> forall k, r, c :: 0 <= k < 8 && 0 <= r < 14 && 0 <= c < 14 ==>
              OutIdx(k, r, c) < |s| && BitChar(res.value[k][r][c]) == LiteralBit(s, OutIdx(k, r, c))
    ensures res.Err? ==> FirstError(OutSlots(s), res.error)
    ensures res.Err? ==>
              res.error == if exists b :: 0 <= b < |s| && b < 1568 && !IsBitChar(LiteralBit(s, b)) then BadDigit
                           else IndexOutOfRange
  {
    OutSlotsOk(s);
    match Collect(OutSlots(s))
    case Err(e) => CollectError(OutSlots(s)); OutSlotsError(s, e); Err(e)
    case Ok(v) =>
      assert forall k, r, c :: 0 <= k < 8 && 0 <= r < 14 && 0 <= c < 14 ==>
               OutIdx(k, r, c) < 1568 && OutSlots(s)[OutIdx(k, r, c)] == Ok(v[OutIdx(k, r, c)]);
      Ok(PlanesOf(v))
  }

  /** Decoding a packed output gives the output back. */
  lemma OutputRoundTrip(o: Planes)
    requires IsPlanes(o, 8, 14)
    ensures VerilogToOutput(OutputToVerilog(o)) == Ok(o)
  {
    var s := OutputToVerilog(o);
    forall b | 0 <= b < 1568
      ensures IsBitChar(LiteralBit(s, b))
    {
      Idx3Coords(b, 8, 14, 14);
      OutputToVerilogAt(o, Hi(b, 14, 14), Mid(b, 14, 14), Lo(b, 14));
    }
    var d := VerilogToOutput(s).value;
    forall k, r, c | 0 <= k < 8 && 0 <= r < 14 && 0 <= c < 14
      ensures d[k][r][c] == o[k][r][c]
    {
      OutputToVerilogAt(o, k, r, c);
    }
    BoxEqual(d, o, 8, 14, 14);
  }

  /** Packing a decoded literal of exactly 1568 bit characters gives the literal back. */
  lemma LiteralRoundTrip(s: string)
    requires |s| == 1568 && AllBitChars(s)
    ensures VerilogToOutput(s).Ok?
    ensures OutputToVerilog(VerilogToOutput(s).value) == s
  {
    var o := VerilogToOutput(s).value;
    var t := OutputToVerilog(o);
    forall k, r, c | 0 <= k < 8 && 0 <= r < 14 && 0 <= c < 14
      ensures Idx3(k, r, c, 14, 14) < |t| && LiteralBit(t, Idx3(k, r, c, 14, 14)) == LiteralBit(s, Idx3(k, r, c, 14, 14))
    {
      OutputToVerilogAt(o, k, r, c);
    }
    LiteralsEqual(t, s, 8, 14, 14);
  }

  // ---------------------------------------------------------------------
  // The same ports fed from tap-major weights
  // ---------------------------------------------------------------------

  /** `flatten_for_verilog`: pixels, tap-major weights `[r][c][w]` scattered to
      `r*24 + c*8 + w`, and the expected `[w][r][c]` output scattered to
      `w*196 + r*14 + c`, each reversed. */
  function FlattenForVerilog(p: LayerOne.Image, wt: seq<seq<seq<Bit>>>, expected: Planes): (res: (string, string, string))
    requires LayerOne.IsImage(p) && LayerOne.IsTapWeights(wt) && IsPlanes(expected, 8, 14)
    ensures |res.0| == 784 && |res.1| == 72 && |res.2| == 1568
  {
    (PixelsToVerilog(p), TapMajor(wt), OutputToVerilog(expected))
  }

  lemma TapMajorAt(wt: seq<seq<seq<Bit>>>, r: nat, c: nat, w: nat)
    requires LayerOne.IsTapWeights(wt) && r < 3 && c < 3 && w < 8
    ensures WeightIdx(w, r, c) < 72
    ensures LiteralBit(TapMajor(wt), WeightIdx(w, r, c)) == BitChar(wt[r][c][w])
  {
    CharsBox(wt, 3, 3, 8);
    SamePackAt(Chars(wt), 3, 3, 8, '0', r, c, w);
    TapIdx(r, c, w);
  }

  /** The weight literal of `flatten_for_verilog`. */
  function TapMajor(wt: seq<seq<seq<Bit>>>): (s: string)
    requires LayerOne.IsTapWeights(wt)
    ensures |s| == 72
  {
    CharsBox(wt, 3, 3, 8);
    Pack(Chars(wt), SameOrder, 3, 3, 8, '0')
  }

  /** The tap-major packer and `weights_to_verilog` produce the same literal
      for the same kernels. */
  lemma TapMajorAgrees(p: LayerOne.Image, wt: seq<seq<seq<Bit>>>, expected: Planes)
    requires LayerOne.IsImage(p) && LayerOne.IsTapWeights(wt) && IsPlanes(expected, 8, 14)
    ensures FlattenForVerilog(p, wt, expected).1 == WeightsToVerilog(LayerOne.KernelsOf(wt))
  {
    var ws := LayerOne.KernelsOf(wt);
    var s := TapMajor(wt);
    var t := WeightsToVerilog(ws);
    forall r, c, w | 0 <= r < 3 && 0 <= c < 3 && 0 <= w < 8
      ensures Idx3(r, c, w, 3, 8) < |s| && LiteralBit(s, Idx3(r, c, w, 3, 8)) == LiteralBit(t, Idx3(r, c, w, 3, 8))
    {
      TapMajorAt(wt, r, c, w);
      WeightsToVerilogAt(ws, w, r, c);
      TapIdx(r, c, w);
    }
    LiteralsEqual(s, t, 3, 3, 8);
  }

  lemma FlattenForVerilogAt(p: LayerOne.Image, wt: seq<seq<seq<Bit>>>, expected: Planes, r: nat, c: nat, w: nat)
    requires LayerOne.IsImage(p) && LayerOne.IsTapWeights(wt) && IsPlanes(expected, 8, 14)
    requires r < 3 && c < 3 && w < 8
    ensures WeightIdx(w, r, c) < 72
    ensures LiteralBit(FlattenForVerilog(p, wt, expected).1, WeightIdx(w, r, c)) == BitChar(wt[r][c][w])
  {
    TapMajorAt(wt, r, c, w);
  }

  // ---------------------------------------------------------------------
  // Text tables of the flattening converter
  // ---------------------------------------------------------------------

  /** `flatten_pixels`: the rows concatenated, reversed. */
  function FlattenPixels(rows: seq<string>): (s: string)
    ensures |s| == |Concat(rows)|
  {
    Reverse(Concat(rows))
  }

  /** On 28 rows of 28 characters, character `c` of row `r` is bit `28r + c`. */
  lemma FlattenPixelsAt(rows: seq<string>, r: nat, c: nat)
    requires |rows| == 28 && (forall i :: 0 <= i < 28 ==> |rows[i]| == 28)
    requires r < 28 && c < 28
    ensures |FlattenPixels(rows)| == 784 && 28 * r + c < 784
    ensures LiteralBit(FlattenPixels(rows), 28 * r + c) == rows[r][c]
  {
    ConcatRectLength(rows, 28);
    ConcatRectAt(rows, 28, r, c);
  }

  /** A 28x28 pattern flattens to the literal of the image its characters spell. */
  lemma FlattenPixelsOf(rows: seq<string>, p: LayerOne.Image)
    requires |rows| == 28 && (forall i :: 0 <= i < 28 ==> |rows[i]| == 28)
    requires LayerOne.IsImage(p)
    requires forall i, j :: 0 <= i < 28 && 0 <= j < 28 ==> BitChar(p[i][j]) == rows[i][j]
    ensures FlattenPixels(rows) == PixelsToVerilog(p)
  {
    var s := FlattenPixels(rows);
    var t := PixelsToVerilog(p);
    ConcatRectLength(rows, 28);
    forall a, b, c | 0 <= a < 1 && 0 <= b < 28 && 0 <= c < 28
      ensures Idx3(a, b, c, 28, 28) < |s| && LiteralBit(s, Idx3(a, b, c, 28, 28)) == LiteralBit(t, Idx3(a, b, c, 28, 28))
    {
      FlattenPixelsAt(rows, b, c);
      PixelsToVerilogAt(p, b, c);
    }
    LiteralsEqual(s, t, 1, 28, 28);
  }

  /** A well-formed pattern flattens to the same literal as the parsed image. */
  lemma FlattenPixelsAgrees(rows: seq<string>)
    requires |rows| == 28 && (forall i :: 0 <= i < 28 ==> |rows[i]| == 28)
    requires forall i, j :: 0 <= i < 28 && 0 <= j < 28 ==> IsBitChar(rows[i][j])
    ensures LayerOne.ParseImage(rows).Ok?
    ensures FlattenPixels(rows) == PixelsToVerilog(LayerOne.ParseImage(rows).value)
  {
    FlattenPixelsOf(rows, LayerOne.ParseImage(rows).value);
  }

  /** The first `d2` characters of every entry of a `d0 x d1` table of strings. */
  function Box(table: seq<seq<string>>, d0: nat, d1: nat, d2: nat): (x: seq<seq<seq<char>>>)
    requires |table| >= d0 && (forall a :: 0 <= a < d0 ==> |table[a]| >= d1)
    requires forall a, b :: 0 <= a < d0 && 0 <= b < d1 ==> |table[a][b]| >= d2
    ensures IsBox3(x, d0, d1, d2)
    ensures forall a, b, c :: 0 <= a < d0 && 0 <= b < d1 && 0 <= c < d2 ==> x[a][b][c] == table[a][b][c]
  {
    seq(d0, a requires 0 <= a < d0 => seq(d1, b requires 0 <= b < d1 => table[a][b][..d2]))
  }

  predicate IsTable(table: seq<seq<string>>, d0: nat, d1: nat, d2: nat) {
    && |table| >= d0
    && (forall a :: 0 <= a < d0 ==> |table[a]| >= d1)
    && (forall a, b :: 0 <= a < d0 && 0 <= b < d1 ==> |table[a][b]| >= d2)
  }

  /** `flatten_weights`: character `w` of entry `[r][c]` goes to `r*24 + c*8 + w`, reversed. */
  function FlattenWeights(table: seq<seq<string>>): (s: string)
    requires IsTable(table, 3, 3, 8)
    ensures |s| == 72
  {
    Pack(Box(table, 3, 3, 8), SameOrder, 3, 3, 8, '0')
  }

  lemma FlattenWeightsAt(table: seq<seq<string>>, r: nat, c: nat, w: nat)
    requires IsTable(table, 3, 3, 8) && r < 3 && c < 3 && w < 8
    ensures WeightIdx(w, r, c) < 72
    ensures LiteralBit(FlattenWeights(table), WeightIdx(w, r, c)) == table[r][c][w]
  {
    SamePackAt(Box(table, 3, 3, 8), 3, 3, 8, '0', r, c, w);
    TapIdx(r, c, w);
  }

  /** `flatten_expected_output`: character `w` of entry `[r][c]` (a channels-last
      table) goes to `w*196 + r*14 + c`, reversed. */
  function FlattenExpectedOutput(table: seq<seq<string>>): (s: string)
    requires IsTable(table, 14, 14, 8)
    ensures |s| == 1568
  {
    Pack(Box(table, 14, 14, 8), LastToFirst, 14, 14, 8, '0')
  }

  lemma FlattenExpectedOutputAt(table: seq<seq<string>>, r: nat, c: nat, w: nat)
    requires IsTable(table, 14, 14, 8) && r < 14 && c < 14 && w < 8
    ensures OutIdx(w, r, c) < 1568
    ensures LiteralBit(FlattenExpectedOutput(table), OutIdx(w, r, c)) == table[r][c][w]
  {
    var x := Box(table, 14, 14, 8);
    LastToFirstPackAt(x, 14, 14, 8, '0', r, c, w);
    OutPos(w, r, c);
  }

  // ---------------------------------------------------------------------
  // Layer two: multi-dimensional packed ports
  // ---------------------------------------------------------------------

  /** Position `[a][b][c]` counted from the top corner of a box. */
  lemma {:induction false} DownIdx(a: nat, b: nat, c: nat, d0: nat, d1: nat, d2: nat)
    requires a < d0 && b < d1 && c < d2
    ensures Idx3(a, b, c, d1, d2) < d0 * d1 * d2
    ensures Idx3(d0 - 1 - a, d1 - 1 - b, d2 - 1 - c, d1, d2) == d0 * d1 * d2 - 1 - Idx3(a, b, c, d1, d2)
  {
    var a', b', c' := d0 - 1 - a, d1 - 1 - b, d2 - 1 - c;
    assert a' * d1 + b' == d0 * d1 - 1 - (a * d1 + b) by {
      assert a' * d1 == d0 * d1 - a * d1 - d1;
    }
    var u, v := a * d1 + b, a' * d1 + b';
    assert v * d2 + c' == d0 * d1 * d2 - 1 - (u * d2 + c) by {
      assert v * d2 == (d0 * d1) * d2 - u * d2 - d2;
    }
    assert u * d2 + c < d0 * d1 * d2 by {
      assert u < d0 * d1;
      MulStrictMono(u, d0 * d1, d2);
    }
  }

  /** A box flattened from its top corner down holds `box[d0-1-a][d1-1-b][d2-1-c]`
      at literal bit `Idx3(a, b, c)`. */
  lemma FlattenDownAt<T>(box: seq<seq<seq<T>>>, d0: nat, d1: nat, d2: nat, a: nat, b: nat, c: nat)
    requires IsBox3(box, d0, d1, d2) && a < d0 && b < d1 && c < d2
    ensures Idx3(a, b, c, d1, d2) < |Flatten3(box)|
    ensures LiteralBit(Flatten3(box), Idx3(a, b, c, d1, d2)) == box[d0 - 1 - a][d1 - 1 - b][d2 - 1 - c]
  {
    Flatten3Length(box, d0, d1, d2);
    DownIdx(a, b, c, d0, d1, d2);
    Flatten3IndexAt(box, d0, d1, d2, d0 - 1 - a, d1 - 1 - b, d2 - 1 - c);
  }

  /** The pixel box of `pixels_to_sv`, indexed from `[13][13][7]` down. */
  function PixelsDown(x: Grid): (box: seq<seq<seq<char>>>)
    requires IsGrid(x, 14, 8)
    ensures IsBox3(box, 14, 14, 8)
    ensures forall i, j, k :: 0 <= i < 14 && 0 <= j < 14 && 0 <= k < 8 ==>
              box[i][j][k] == BitChar(x[13 - i][13 - j][7 - k])
  {
    seq(14, i requires 0 <= i < 14 => seq(14, j requires 0 <= j < 14 =>
      seq(8, k requires 0 <= k < 8 => BitChar(x[13 - i][13 - j][7 - k]))))
  }

  /** `pixels_to_sv`: `[13:0][13:0][7:0]`, appended from `[13][13][7]` down to `[0][0][0]`. */
  function PixelsToSv(x: Grid): (s: string)
    requires IsGrid(x, 14, 8)
    ensures |s| == 1568
  {
    Flatten3Length(PixelsDown(x), 14, 14, 8);
    Flatten3(PixelsDown(x))
  }

  /** Element `[row][col][ch]` is packed bit `row*112 + col*8 + ch`. */
  lemma PixelsToSvAt(x: Grid, row: nat, col: nat, ch: nat)
    requires IsGrid(x, 14, 8) && row < 14 && col < 14 && ch < 8
    ensures Idx3(row, col, ch, 14, 8) < 1568
    ensures LiteralBit(PixelsToSv(x), Idx3(row, col, ch, 14, 8)) == BitChar(x[row][col][ch])
  {
    FlattenDownAt(PixelsDown(x), 14, 14, 8, row, col, ch);
  }

  /** Walking the indices downwards gives the reversed row-major flattening. */
  lemma PixelsToSvIsReverse(x: Grid)
    requires IsGrid(x, 14, 8)
    ensures PixelsToSv(x) == Reverse(Flatten3(Chars(x)))
  {
    var s := PixelsToSv(x);
    var t := Reverse(Flatten3(Chars(x)));
    Flatten3Length(Chars(x), 14, 14, 8);
    forall row, col, ch | 0 <= row < 14 && 0 <= col < 14 && 0 <= ch < 8
      ensures Idx3(row, col, ch, 14, 8) < |s| && LiteralBit(s, Idx3(row, col, ch, 14, 8)) == LiteralBit(t, Idx3(row, col, ch, 14, 8))
    {
      PixelsToSvAt(x, row, col, ch);
      Flatten3IndexAt(Chars(x), 14, 14, 8, row, col, ch);
    }
    LiteralsEqual(s, t, 14, 14, 8);
  }

  /** The weight box of `weights_to_sv`, indexed from `[2][2][7]` down; the
      slots of filters 4..7 hold '0'. */
  function WeightsDown(hw: LayerTwo.HwWeights): (box: seq<seq<seq<char>>>)
    requires LayerTwo.IsHw(hw)
    ensures IsBox3(box, 3, 3, 8)
    ensures forall i, j, k :: 0 <= i < 3 && 0 <= j < 3 && 0 <= k < 8 ==>
              box[i][j][k] == if 7 - k < 4 then BitChar(hw[2 - i][2 - j][7 - k]) else '0'
  {
    seq(3, i requires 0 <= i < 3 => seq(3, j requires 0 <= j < 3 =>
      seq(8, k requires 0 <= k < 8 => if 7 - k < 4 then BitChar(hw[2 - i][2 - j][7 - k]) else '0')))
  }

  /** `weights_to_sv`: `[2:0][2:0][7:0]` from the `[kr][kc][f]` hardware weights,
      the unused filter slots 4..7 packed as '0'. */
  function WeightsToSv(hw: LayerTwo.HwWeights): (s: string)
    requires LayerTwo.IsHw(hw)
    ensures |s| == 72
  {
    Flatten3Length(WeightsDown(hw), 3, 3, 8);
    Flatten3(WeightsDown(hw))
  }

  lemma WeightsToSvAt(hw: LayerTwo.HwWeights, kr: nat, kc: nat, f: nat)
    requires LayerTwo.IsHw(hw) && kr < 3 && kc < 3 && f < 8
    ensures WeightIdx(f, kr, kc) < 72
    ensures LiteralBit(WeightsToSv(hw), WeightIdx(f, kr, kc)) == if f < 4 then BitChar(hw[kr][kc][f]) else '0'
  {
    FlattenDownAt(WeightsDown(hw), 3, 3, 8, kr, kc, f);
    assert Idx3(kr, kc, f, 3, 8) == WeightIdx(f, kr, kc);
  }

  /** The testbench's flat index `bit_pos = f*49 + r*7 + c`. */
  function BitPos(f: nat, r: nat, c: nat): nat {
    f * 49 + r * 7 + c
  }

  /** The output box of `output_to_sv`, indexed from `[3][6][6]` down. */
  function OutputDown(o: Planes): (box: seq<seq<seq<char>>>)
    requires IsPlanes(o, 4, 7)
    ensures IsBox3(box, 4, 7, 7)
    ensures forall i, j, k :: 0 <= i < 4 && 0 <= j < 7 && 0 <= k < 7 ==>
              box[i][j][k] == BitChar(o[3 - i][6 - j][6 - k])
  {
    seq(4, i requires 0 <= i < 4 => seq(7, j requires 0 <= j < 7 =>
      seq(7, k requires 0 <= k < 7 => BitChar(o[3 - i][6 - j][6 - k]))))
  }

  /** `output_to_sv`: `[3:0][6:0][6:0]` appended from `[3][6][6]` down to `[0][0][0]`. */
  function OutputToSv(o: Planes): (s: string)
    requires IsPlanes(o, 4, 7)
    ensures |s| == 196
  {
    Flatten3Length(OutputDown(o), 4, 7, 7);
    Flatten3(OutputDown(o))
  }

  /** Output `[f][r][c]` is bit `bit_pos(f, r, c)`, the bit the testbench reads. */
  lemma OutputToSvAt(o: Planes, f: nat, r: nat, c: nat)
    requires IsPlanes(o, 4, 7) && f < 4 && r < 7 && c < 7
    ensures BitPos(f, r, c) < 196
    ensures LiteralBit(OutputToSv(o), BitPos(f, r, c)) == BitChar(o[f][r][c])
  {
    FlattenDownAt(OutputDown(o), 4, 7, 7, f, r, c);
    assert Idx3(f, r, c, 7, 7) == BitPos(f, r, c);
  }
}
