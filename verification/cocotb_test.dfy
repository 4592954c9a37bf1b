/** The top-level cocotb test: the pin encoding of the load phase, the image
    it streams, and the range check on the answer it reads back.  The clock,
    reset and `await` plumbing are not modelled; the design's answer is a
    parameter. */
module CocotbTest {
  import opened Errors
  import opened Bits
  import opened Mnist
  import opened CsvText
  import opened WeightStream

  const PIXEL_BITS: nat := 784
  /** The load phase lasts `max(784, 72 + 288 + 1960)` ticks. */
  const LOAD_CYCLES: nat := 2320
  /** `ui_in = 0b001`: the one-tick mode pulse that starts the load phase. */
  const TRIGGER: bv8 := 1

  // ---------------------------------------------------------------------
  // The input pins
  // ---------------------------------------------------------------------

  /** `(w_bit << 2) | (p_bit << 1)`: the byte driven on `ui_in` for one tick. */
  function UiIn(w: Bit, p: Bit): bv8 {
    ((w as bv8) << 2) | ((p as bv8) << 1)
  }

  /** `ui_in[0]`, `ui_in[1]` and `ui_in[2]`: mode, pixel bit and weight bit. */
  function ModePin(v: bv8): Bit {
    if v & 1 == 1 then 1 else 0
  }

  function PixelPin(v: bv8): Bit {
    if (v >> 1) & 1 == 1 then 1 else 0
  }

  function WeightPin(v: bv8): Bit {
    if (v >> 2) & 1 == 1 then 1 else 0
  }

  /** A streaming byte keeps the mode pin low and carries the two bits on
      pins 1 and 2, so the design reads back exactly what was driven. */
  lemma UiInPins(w: Bit, p: Bit)
    ensures ModePin(UiIn(w, p)) == 0
    ensures PixelPin(UiIn(w, p)) == p
    ensures WeightPin(UiIn(w, p)) == w
    ensures UiIn(w, p) as int == 4 * w + 2 * p
  {
    if w == 0 {
      if p == 0 { assert UiIn(w, p) == 0; } else { assert UiIn(w, p) == 2; }
    } else {
      if p == 0 { assert UiIn(w, p) == 4; } else { assert UiIn(w, p) == 6; }
    }
  }

  /** The pulse raises only the mode pin. */
  lemma TriggerPins()
    ensures ModePin(TRIGGER) == 1 && PixelPin(TRIGGER) == 0 && WeightPin(TRIGGER) == 0
  {
    assert TRIGGER >> 1 == 0;
  }

  /** The load loop: on tick `i` the weight pin carries `w_stream[i]` and the
      pixel pin `p_bits[i]` for the first 784 ticks, 0 afterwards.  A stream
      shorter than the loop needs raises `IndexError`. */
  method DriveLoad(pBits: seq<Bit>, wStream: seq<Bit>) returns (res: Result<seq<bv8>>)
    ensures res.Ok? <==> |pBits| >= PIXEL_BITS && |wStream| >= LOAD_CYCLES
    ensures res.Err? ==> res.error == IndexOutOfRange
    ensures res.Ok? ==> |res.value| == LOAD_CYCLES
    ensures res.Ok? ==> forall i :: 0 <= i < LOAD_CYCLES ==>
              ModePin(res.value[i]) == 0
              && WeightPin(res.value[i]) == wStream[i]
              && PixelPin(res.value[i]) == (if i < PIXEL_BITS then pBits[i] else 0)
  {
    var ticks: seq<bv8> := [];
    var i := 0;
    while i < LOAD_CYCLES
      invariant i <= LOAD_CYCLES && |ticks| == i
      invariant i <= |wStream|
      invariant (if i < PIXEL_BITS then i else PIXEL_BITS) <= |pBits|
      invariant forall k :: 0 <= k < i ==>
                  ModePin(ticks[k]) == 0
                  && WeightPin(ticks[k]) == wStream[k]
                  && PixelPin(ticks[k]) == (if k < PIXEL_BITS then pBits[k] else 0)
    {
      var p: Bit := 0;
      if i < PIXEL_BITS {
        if i >= |pBits| {
          return Err(IndexOutOfRange);
        }
        p := pBits[i];
      }
      if i >= |wStream| {
        return Err(IndexOutOfRange);
      }
      UiInPins(wStream[i], p);
      ticks := ticks + [UiIn(wStream[i], p)];
      i := i + 1;
    }
    return Ok(ticks);
  }

  // ---------------------------------------------------------------------
  // The streamed image
  // ---------------------------------------------------------------------

  datatype Inputs = Inputs(pixels: seq<Bit>, truth: Option<Byte>)

  function ZeroPixels(): (z: seq<Bit>)
    ensures |z| == PIXEL_BITS && forall i :: 0 <= i < |z| ==> z[i] == 0
  {
    seq(PIXEL_BITS, _ => 0)
  }

  /** `load_image_and_label(index)` together with the fallback around it: a
      missing image file or a short header gives 784 zero pixels and no
      label.  Otherwise image `index` is the slice of `rows*cols // 8` bytes
      after the header, unpacked most significant bit first (98 bytes when
      the images are 28x28), and the label is read where it exists. */
  function TestInputs(img: Option<seq<Byte>>, lbl: Option<seq<Byte>>, index: nat): (got: Inputs)
    ensures img.None? || |img.value| < 16 ==> got.pixels == ZeroPixels() && got.truth.None?
    ensures img.Some? && |img.value| >= 16 ==>
              got.truth.Some? == (lbl.Some? && 8 + index < |lbl.value|)
              && (got.truth.Some? ==> got.truth.value == lbl.value[8 + index])
    ensures img.Some? && |img.value| >= 16 ==>
              var h := ImageHeader(img.value).value;
              h.rows * h.cols == PIXEL_BITS && 16 + index * 98 + 98 <= |img.value| ==>
                UnpacksBytes(got.pixels, img.value, 16 + index * 98, 98)
  {
    match img
    case None => Inputs(ZeroPixels(), None)
    case Some(file) =>
      match ImageSlice(file, index)
      case Err(_) => Inputs(ZeroPixels(), None)
      case Ok(pixels) => Inputs(pixels, LabelAt(lbl, index))
  }

  /** With a complete 28x28 image on file, the pixel pin carries, on tick
      `8j + i`, bit `7 - i` of data byte `index*98 + j`. */
  lemma StreamedPixel(file: seq<Byte>, lbl: Option<seq<Byte>>, index: nat, j: nat, i: nat)
    requires |file| >= 16
    requires ImageHeader(file).value.rows * ImageHeader(file).value.cols == PIXEL_BITS
    requires 16 + index * 98 + 98 <= |file|
    requires j < 98 && i < 8
    ensures |TestInputs(Some(file), lbl, index).pixels| == PIXEL_BITS
    ensures TestInputs(Some(file), lbl, index).pixels[8 * j + i] == BitOf(file[16 + index * 98 + j], 7 - i)
  {
    var p := 8 * j + i;
    assert p / 8 == j && p % 8 == i;
  }

  // ---------------------------------------------------------------------
  // The answer
  // ---------------------------------------------------------------------

  /** `int(uo_out) & 0xF`: the low four bits of the output byte. */
  function Answer(uo: bv8): (a: nat)
    ensures a < 16
    ensures a == (uo as int) % 16
  {
    (uo & 0xF) as int
  }

  datatype Outcome =
    | OutOfRange(answer: nat)             // the hard `assert 0 <= answer <= 9` fails
    | Mismatch(answer: nat, truth: Byte)  // the soft check logs a warning
    | Accepted(answer: nat)

  /** The hard range check, then the soft comparison with the label. */
  function Judge(uo: bv8, truth: Option<Byte>): (o: Outcome)
    ensures o.OutOfRange? <==> (uo as int) % 16 > 9
    ensures o.Mismatch? <==> (uo as int) % 16 <= 9 && truth.Some? && truth.value != (uo as int) % 16
    ensures o.Accepted? ==> o.answer <= 9 && (truth.Some? ==> truth.value == o.answer)
  {
    var a := Answer(uo);
    if a > 9 then OutOfRange(a)
    else if truth.Some? && truth.value != a then Mismatch(a, truth.value)
    else Accepted(a)
  }

  /** The answer byte of a design that reports a digit in its low nibble is
      accepted whatever the upper nibble holds, so long as the label agrees. */
  lemma DigitAccepted(high: bv8, d: bv8)
    requires d <= 9
    ensures Judge((high << 4) | d, Some(d as int)) == Accepted(d as int)
  {
    assert ((high << 4) | d) & 0xF == d;
  }

  // ---------------------------------------------------------------------
  // The whole test
  // ---------------------------------------------------------------------

  datatype Run = Run(ticks: seq<bv8>, outcome: Outcome)

  /** `test_project`: build the weight stream from the three weight files,
      load image 0, drive the load phase, then judge the design's answer
      `uo`.  A weight file of the wrong length or a pixel list shorter than
      784 stops the test. */
  method TestProject(l0: seq<string>, l3: seq<string>, l7: seq<string>,
                     img: Option<seq<Byte>>, lbl: Option<seq<Byte>>, uo: bv8)
    returns (res: Result<Run>)
    ensures res.Ok? <==>
              var w1 := LoadCsvBits(l0);
              var w2 := LoadCsvBits(l3);
              var w3 := LoadCsvBits(l7);
              w1.Ok? && w2.Ok? && w3.Ok?
              && BuildWeightStream(w1.value, w2.value, w3.value).Ok?
              && (forall i :: 0 <= i < |BuildWeightStream(w1.value, w2.value, w3.value).value| ==>
                    0 <= BuildWeightStream(w1.value, w2.value, w3.value).value[i] <= 1)
              && |TestInputs(img, lbl, 0).pixels| >= PIXEL_BITS
    ensures res.Ok? ==> |res.value.ticks| == LOAD_CYCLES
    ensures res.Ok? ==> forall i :: 0 <= i < LOAD_CYCLES ==>
              ModePin(res.value.ticks[i]) == 0
              && PixelPin(res.value.ticks[i]) == (if i < PIXEL_BITS then TestInputs(img, lbl, 0).pixels[i] else 0)
    ensures res.Ok? ==>
              var w1 := LoadCsvBits(l0);
              var w2 := LoadCsvBits(l3);
              var w3 := LoadCsvBits(l7);
              w1.Ok? && w2.Ok? && w3.Ok?
              && BuildWeightStream(w1.value, w2.value, w3.value).Ok?
              && forall i :: 0 <= i < LOAD_CYCLES ==>
                   WeightPin(res.value.ticks[i]) == BuildWeightStream(w1.value, w2.value, w3.value).value[i]
    ensures res.Ok? ==> res.value.outcome == Judge(uo, TestInputs(img, lbl, 0).truth)
    ensures res.Ok? ==> |TestInputs(img, lbl, 0).pixels| >= PIXEL_BITS
  {
    var w1 :- LoadCsvBits(l0);
    var w2 :- LoadCsvBits(l3);
    var w3 :- LoadCsvBits(l7);
    var stream :- BuildWeightStream(w1, w2, w3);
    if exists i :: 0 <= i < |stream| && !(0 <= stream[i] <= 1) {
      // A weight other than 0 or 1 would be driven as a wider value.
      return Err(BadDigit);
    }
    var bits: seq<Bit> := stream;
    var inputs := TestInputs(img, lbl, 0);
    var ticks :- DriveLoad(inputs.pixels, bits);
    return Ok(Run(ticks, Judge(uo, inputs.truth)));
  }
}
