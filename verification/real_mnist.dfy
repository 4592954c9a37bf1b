/** The top-level test-case generator: load the MNIST image and label files
    (magic numbers checked), reject any requested index outside the image
    set, build the 2320-bit weight stream from the three weight tables, and
    emit the weight file, the test configuration and one row-major pixel
    file per requested image.  The files are modelled as values in the order
    the generator writes them; an error after some files were written keeps
    those files. */
module RealMnist {
  import opened Errors
  import opened Bits
  import opened Layout
  import opened Sequences
  import opened Mnist
  import opened CsvText
  import opened WeightStream

  datatype FileOut =
    | WeightsMem(bits: seq<int>)                    // weights.mem, one bit per line
    | TestConfig(count: nat, entries: seq<(nat, Byte)>)  // test_config.mem: count, then index and label
    | PixelFile(n: nat, pixels: seq<Bit>)            // MNIST_data_gen/pixels_<n>.mem

  datatype Run = Run(files: seq<FileOut>, error: Option<Error>)

  predicate ValidIndex(idx: int, size: nat) {
    0 <= idx < size
  }

  /** The index validation loop: the first requested index outside
      `[0, size)`, if any. */
  function FirstInvalid(indices: seq<int>, size: nat): (bad: Option<int>)
    ensures bad.None? <==> forall i :: 0 <= i < |indices| ==> ValidIndex(indices[i], size)
    ensures bad.Some? ==> !ValidIndex(bad.value, size)
                          && exists i :: 0 <= i < |indices| && indices[i] == bad.value
                                         && forall j :: 0 <= j < i ==> ValidIndex(indices[j], size)
  {
    if |indices| == 0 then None
    else if !ValidIndex(indices[0], size) then Some(indices[0])
    else
      var rest := FirstInvalid(indices[1..], size);
      assert forall i :: 1 <= i < |indices| ==> indices[i] == indices[1..][i - 1];
      if rest.Some? then
        var i :| 0 <= i < |indices[1..]| && indices[1..][i] == rest.value
                 && forall j :: 0 <= j < i ==> ValidIndex(indices[1..][j], size);
        assert indices[i + 1] == rest.value;
        rest
      else rest
  }

  /** `f"{idx:X} {labels[idx]:X}"` for every index: a label file shorter
      than an index raises `IndexError`. */
  function ConfigEntries(indices: seq<nat>, labels: seq<Byte>): (res: Result<seq<(nat, Byte)>>)
    ensures res.Ok? <==> forall i :: 0 <= i < |indices| ==> indices[i] < |labels|
    ensures res.Err? ==> res.error == IndexOutOfRange
    ensures res.Ok? ==> |res.value| == |indices|
                        && forall i :: 0 <= i < |indices| ==> res.value[i] == (indices[i], labels[indices[i]])
  {
    if forall i :: 0 <= i < |indices| ==> indices[i] < |labels| then
      Ok(seq(|indices|, i requires 0 <= i < |indices| => (indices[i], labels[indices[i]])))
    else Err(IndexOutOfRange)
  }

  /** `bits` holds pixel `(r, c)` of a `rows x cols` image at `r * cols + c`. */
  predicate RowMajorImage(bits: seq<Bit>, image: seq<seq<Bit>>, rows: nat, cols: nat) {
    |bits| == rows * cols
    && forall r, c :: 0 <= r < rows && 0 <= c < cols && r < |image| && c < |image[r]| ==>
         r * cols + c < |bits| && bits[r * cols + c] == image[r][c]
  }

  /** `image.flatten().tolist()`: the rows of one image laid end to end. */
  function FlattenImage(image: seq<seq<Bit>>, rows: nat, cols: nat): (bits: seq<Bit>)
    requires |image| == rows && forall r :: 0 <= r < rows ==> |image[r]| == cols
    ensures RowMajorImage(bits, image, rows, cols)
  {
    FlattenRowMajor(image, rows, cols);
    Concat(image)
  }

  lemma FlattenRowMajor(image: seq<seq<Bit>>, rows: nat, cols: nat)
    requires |image| == rows && forall r :: 0 <= r < rows ==> |image[r]| == cols
    ensures RowMajorImage(Concat(image), image, rows, cols)
  {
    ConcatRectLength(image, cols);
    forall r, c | 0 <= r < rows && 0 <= c < cols && r < |image| && c < |image[r]|
      ensures r * cols + c < |Concat(image)| && Concat(image)[r * cols + c] == image[r][c]
    {
      ConcatRectAt(image, cols, r, c);
    }
  }

  function PixelFiles(images: seq<seq<seq<Bit>>>, indices: seq<nat>, rows: nat, cols: nat): (fs: seq<FileOut>)
    requires IsBox3(images, |images|, rows, cols)
    requires forall i :: 0 <= i < |indices| ==> indices[i] < |images|
    ensures |fs| == |indices|
    ensures forall i :: 0 <= i < |indices| ==> fs[i] == PixelFile(i, FlattenImage(images[indices[i]], rows, cols))
  {
    seq(|indices|, i requires 0 <= i < |indices| => PixelFile(i, FlattenImage(images[indices[i]], rows, cols)))
  }

  function AsNats(indices: seq<int>): (ns: seq<nat>)
    requires forall i :: 0 <= i < |indices| ==> indices[i] >= 0
    ensures |ns| == |indices| && forall i :: 0 <= i < |indices| ==> ns[i] == indices[i]
  {
    seq(|indices|, i requires 0 <= i < |indices| => indices[i] as nat)
  }

  /** `main`, from the loaded files to the written ones. */
  function Generate(imgFile: seq<Byte>, lblFile: seq<Byte>, indices: seq<int>,
                    l0: seq<string>, l3: seq<string>, l7: seq<string>): (run: Run)
    ensures |run.files| <= 2 + |indices|
    ensures run.error.None? ==> |run.files| == 2 + |indices|
  {
    match LoadImages(imgFile, true)
    case Err(e) => Run([], Some(e))
    case Ok(images) =>
      match LoadLabels(lblFile, true)
      case Err(e) => Run([], Some(e))
      case Ok(labels) =>
        var h := ImageHeader(imgFile).value;
        assert IsBox3(images, h.size, h.rows, h.cols);
        Emit(images, h, labels, indices, WeightTables(l0, l3, l7))
  }

  /** The part of `main` after both data files loaded; the weight tables,
      pure values, are read only once every index is known to be valid. */
  function Emit(images: seq<seq<seq<Bit>>>, h: Header, labels: seq<Byte>, indices: seq<int>,
                stream: Result<seq<int>>): (run: Run)
    requires IsBox3(images, h.size, h.rows, h.cols)
    ensures |run.files| <= 2 + |indices|
    ensures run.error.None? ==> |run.files| == 2 + |indices|
    ensures FirstInvalid(indices, h.size).Some? ==>
              run == Run([], Some(BadImageIndex(FirstInvalid(indices, h.size).value)))
    ensures |run.files| > 0 ==>
              stream.Ok? && run.files[0] == WeightsMem(stream.value)
              && forall i :: 0 <= i < |indices| ==> ValidIndex(indices[i], h.size)
    ensures run.error.None? ==> Complete(run, images, h, labels, indices)
  {
    match FirstInvalid(indices, h.size)
    case Some(bad) => Run([], Some(BadImageIndex(bad)))
    case None =>
      var idx := AsNats(indices);
      match stream
      case Err(e) => Run([], Some(e))
      case Ok(bits) =>
        var weights := WeightsMem(bits);
        match ConfigEntries(idx, labels)
        case Err(e) => Run([weights], Some(e))
        case Ok(entries) =>
          var config := TestConfig(|idx|, entries);
          if |idx| > 0 && h.rows * h.cols != 784 then
            // `assert len(pixel_bits) == 784` fails on the first image.
            Run([weights, config], Some(WrongStreamLength(784, h.rows * h.cols)))
          else
            Run([weights, config] + PixelFiles(images, idx, h.rows, h.cols), None)
  }

  /** A run that wrote every file: the configuration lists each index with
      its label, and pixel file `i` holds image `indices[i]` in row-major
      order. */
  predicate Complete(run: Run, images: seq<seq<seq<Bit>>>, h: Header, labels: seq<Byte>, indices: seq<int>) {
    |run.files| == 2 + |indices|
    && (|indices| > 0 ==> h.rows * h.cols == 784)
    && run.files[1].TestConfig? && run.files[1].count == |indices|
    && |run.files[1].entries| == |indices|
    && (forall i :: 0 <= i < |indices| ==>
          0 <= indices[i] < |labels| && indices[i] < |images|
          && run.files[1].entries[i] == (indices[i] as nat, labels[indices[i]]))
    && (forall i :: 0 <= i < |indices| ==>
          run.files[2 + i].PixelFile? && run.files[2 + i].n == i
          && (0 <= indices[i] < |images| ==>
                RowMajorImage(run.files[2 + i].pixels, images[indices[i]], h.rows, h.cols)))
  }

  /** The three weight tables read and packed. */
  function WeightTables(l0: seq<string>, l3: seq<string>, l7: seq<string>): (res: Result<seq<int>>)
    ensures res.Ok? ==> |res.value| == STREAM_BITS
  {
    var w1 :- LoadCsv(l0);
    var w2 :- LoadCsv(l3);
    var w3 :- LoadCsv(l7);
    WeightBits(w1, w2, w3)
  }

  /** A bad index is reported before any file is written. */
  lemma BadIndexWritesNothing(imgFile: seq<Byte>, lblFile: seq<Byte>, indices: seq<int>,
                              l0: seq<string>, l3: seq<string>, l7: seq<string>)
    requires LoadImages(imgFile, true).Ok? && LoadLabels(lblFile, true).Ok?
    requires exists i :: 0 <= i < |indices| && !ValidIndex(indices[i], ImageHeader(imgFile).value.size)
    ensures var run := Generate(imgFile, lblFile, indices, l0, l3, l7);
            run.files == [] && run.error.Some? && run.error.value.BadImageIndex?
            && !ValidIndex(run.error.value.index, ImageHeader(imgFile).value.size)
  {
    GenerateEmits(imgFile, lblFile, indices, l0, l3, l7);
  }

  /** Whatever was written starts with the 2320-bit weight stream, and
      only once every index was found valid. */
  lemma WeightFileFirst(imgFile: seq<Byte>, lblFile: seq<Byte>, indices: seq<int>,
                        l0: seq<string>, l3: seq<string>, l7: seq<string>)
    requires |Generate(imgFile, lblFile, indices, l0, l3, l7).files| > 0
    ensures var run := Generate(imgFile, lblFile, indices, l0, l3, l7);
            run.files[0].WeightsMem?
            && |run.files[0].bits| == STREAM_BITS
            && LoadCsv(l0).Ok? && LoadCsv(l3).Ok? && LoadCsv(l7).Ok?
            && WeightBits(LoadCsv(l0).value, LoadCsv(l3).value, LoadCsv(l7).value) == Ok(run.files[0].bits)
            && LoadImages(imgFile, true).Ok? && LoadLabels(lblFile, true).Ok?
            && forall i :: 0 <= i < |indices| ==> ValidIndex(indices[i], ImageHeader(imgFile).value.size)
  {
    GenerateEmits(imgFile, lblFile, indices, l0, l3, l7);
  }

  /** A complete run writes the configuration: the number of images, then
      each index with its label. */
  lemma ConfigWritten(imgFile: seq<Byte>, lblFile: seq<Byte>, indices: seq<int>,
                      l0: seq<string>, l3: seq<string>, l7: seq<string>)
    requires Generate(imgFile, lblFile, indices, l0, l3, l7).error.None?
    ensures var run := Generate(imgFile, lblFile, indices, l0, l3, l7);
            run.files[1].TestConfig? && run.files[1].count == |indices|
            && |run.files[1].entries| == |indices|
            && forall i :: 0 <= i < |indices| ==>
                 indices[i] >= 0 && 8 + indices[i] < |lblFile|
                 && run.files[1].entries[i] == (indices[i] as nat, lblFile[8 + indices[i]])
  {
    GenerateEmits(imgFile, lblFile, indices, l0, l3, l7);
  }

  /** A complete run writes, for the `i`-th requested index, pixel file `i`
      holding that image's 784 pixels in row-major order. */
  lemma PixelFileWritten(imgFile: seq<Byte>, lblFile: seq<Byte>, indices: seq<int>,
                         l0: seq<string>, l3: seq<string>, l7: seq<string>, i: nat)
    requires Generate(imgFile, lblFile, indices, l0, l3, l7).error.None?
    requires i < |indices|
    ensures var run := Generate(imgFile, lblFile, indices, l0, l3, l7);
            var h := ImageHeader(imgFile).value;
            LoadImages(imgFile, true).Ok?
            && 0 <= indices[i] < h.size && h.rows * h.cols == 784
            && run.files[2 + i] == PixelFile(i, run.files[2 + i].pixels)
            && RowMajorImage(run.files[2 + i].pixels, LoadImages(imgFile, true).value[indices[i]], h.rows, h.cols)
  {
    GenerateEmits(imgFile, lblFile, indices, l0, l3, l7);
  }

  /** The data bit of pixel `p` of an image file: bit `7 - p % 8` of data
      byte `p / 8`. */
  function FileBit(file: seq<Byte>, p: nat): Bit
    requires 16 + p / 8 < |file|
  {
    BitOf(file[16 + p / 8], 7 - p % 8)
  }

  /** A pixel file written for image `n` holds, at `r * cols + c`, the data
      bit of that pixel's position `(n*rows + r)*cols + c` in the image file;
      with `PixelFileWritten`, this traces every bit the generator writes
      back to the byte it came from. */
  lemma PixelFromFile(imgFile: seq<Byte>, pixels: seq<Bit>, n: nat, r: nat, c: nat)
    requires LoadImages(imgFile, true).Ok?
    requires n < ImageHeader(imgFile).value.size
    requires r < ImageHeader(imgFile).value.rows && c < ImageHeader(imgFile).value.cols
    requires RowMajorImage(pixels, LoadImages(imgFile, true).value[n],
                           ImageHeader(imgFile).value.rows, ImageHeader(imgFile).value.cols)
    ensures var h := ImageHeader(imgFile).value;
            var p := Idx3(n, r, c, h.rows, h.cols);
            r * h.cols + c < |pixels|
            && 16 + p / 8 < |imgFile|
            && pixels[r * h.cols + c] == FileBit(imgFile, p)
  {
    var h := ImageHeader(imgFile).value;
    var image := LoadImages(imgFile, true).value[n];
    assert r < |image| && c < |image[r]|;
    ImagePixel(imgFile, true, n, r, c);
  }

  /** `main` stops at the first data file that fails to load; once both
      loaded, what it writes is what `Emit` writes. */
  lemma GenerateEmits(imgFile: seq<Byte>, lblFile: seq<Byte>, indices: seq<int>,
                      l0: seq<string>, l3: seq<string>, l7: seq<string>)
    ensures var run := Generate(imgFile, lblFile, indices, l0, l3, l7);
            var images := LoadImages(imgFile, true);
            var labels := LoadLabels(lblFile, true);
            (images.Err? ==> run == Run([], Some(images.error)))
            && (images.Ok? && labels.Err? ==> run == Run([], Some(labels.error)))
            && (images.Ok? && labels.Ok? ==>
                  |imgFile| >= 16
                  && IsBox3(images.value, ImageHeader(imgFile).value.size,
                            ImageHeader(imgFile).value.rows, ImageHeader(imgFile).value.cols)
                  && run == Emit(images.value, ImageHeader(imgFile).value, labels.value, indices,
                                 WeightTables(l0, l3, l7)))
  {
  }
}
