/** The packed-bit MNIST files: a big-endian header of 32-bit fields, then
    the pixels of every image, eight to a byte, most significant bit first. */
module Mnist {
  import opened Errors
  import opened Bits
  import opened Layout
  import opened Sequences

  /** Magic number of an image file. */
  const IMAGE_MAGIC: nat := 2051
  /** Magic number of a label file. */
  const LABEL_MAGIC: nat := 2049

  // ---------------------------------------------------------------------
  // Big-endian 32-bit fields (`struct.unpack(">I...")`)
  // ---------------------------------------------------------------------

  /** The unsigned 32-bit field stored in bytes `i .. i+4`, most significant first. */
  function BE32(b: seq<Byte>, i: nat): (n: nat)
    requires i + 4 <= |b|
    ensures n < 0x1_0000_0000
  {
    (((b[i] as int) * 256 + b[i + 1]) * 256 + b[i + 2]) * 256 + b[i + 3]
  }

  /** `struct.pack(">I", n)`: the four bytes of `n`, most significant first. */
  function EncodeBE32(n: nat): (b: seq<Byte>)
    requires n < 0x1_0000_0000
    ensures |b| == 4
  {
    [n / 0x100_0000, (n / 0x1_0000) % 256, (n / 256) % 256, n % 256]
  }

  /** Reading back an encoded field gives the number. */
  lemma BE32RoundTrip(n: nat)
    requires n < 0x1_0000_0000
    ensures BE32(EncodeBE32(n), 0) == n
  {
    var q1 := n / 256;
    var q2 := q1 / 256;
    var q3 := q2 / 256;
    DivDiv(n, 256, 256);
    DivDiv(n, 0x1_0000, 256);
    assert q2 == n / 0x1_0000 && q3 == n / 0x100_0000;
    Euclid(n, 256);
    Euclid(q1, 256);
    Euclid(q2, 256);
    assert EncodeBE32(n) == [q3, q2 % 256, q1 % 256, n % 256];
  }

  /** Encoding a field read from four bytes gives the bytes back. */
  lemma EncodeBE32RoundTrip(b: seq<Byte>, i: nat)
    requires i + 4 <= |b|
    ensures EncodeBE32(BE32(b, i)) == b[i..i + 4]
  {
    var n := BE32(b, i);
    var h2: nat := (b[i] as int) * 256 + b[i + 1];
    var h1: nat := h2 * 256 + b[i + 2];
    DivModOf(h1, 256, b[i + 3]);
    DivModOf(h2, 256, b[i + 2]);
    DivModOf(b[i], 256, b[i + 1]);
    assert n / 256 == h1;
    assert n / 0x1_0000 == h1 / 256 == h2 by {
      DivDiv(n, 256, 256);
    }
    assert n / 0x100_0000 == h2 / 256 == b[i] by {
      DivDiv(n, 0x1_0000, 256);
    }
  }

  /** Dividing twice is dividing by the product. */
  lemma DivDiv(x: nat, m: nat, n: nat)
    requires m > 0 && n > 0
    ensures (x / m) / n == x / (m * n)
  {
    var mn := m * n;
    var q, r := x / mn, x % mn;
    Euclid(x, mn);
    var s, t := r / m, r % m;
    Euclid(r, m);
    assert s * m <= r;
    assert mn == n * m;
    LtOfMulLt(s, n, m);
    Regroup(q, n, m, s, t);
    DivModOf(q * n + s, m, t);
    DivModOf(q, n, s);
  }

  lemma Euclid(x: nat, d: nat)
    requires d > 0
    ensures x == (x / d) * d + x % d && x % d < d
  {
  }

  lemma Regroup(q: nat, n: nat, m: nat, s: nat, t: nat)
    ensures q * (m * n) + (s * m + t) == (q * n + s) * m + t
  {
  }

  /** The header fields of an image file. */
  datatype Header = Header(magic: nat, size: nat, rows: nat, cols: nat)

  /** `struct.unpack(">IIII", f.read(16))`: a file shorter than 16 bytes
      makes the read short and the unpack fail. */
  function ImageHeader(file: seq<Byte>): (res: Result<Header>)
    ensures res.Ok? <==> |file| >= 16
    ensures res.Err? ==> res.error == ShortHeader
    ensures res.Ok? ==> res.value.magic < 0x1_0000_0000 && res.value.size < 0x1_0000_0000
                        && res.value.rows < 0x1_0000_0000 && res.value.cols < 0x1_0000_0000
  {
    if |file| < 16 then Err(ShortHeader)
    else Ok(Header(BE32(file, 0), BE32(file, 4), BE32(file, 8), BE32(file, 12)))
  }

  /** The 16 header bytes of an image file with the given fields. */
  function EncodeHeader(h: Header): (b: seq<Byte>)
    requires h.magic < 0x1_0000_0000 && h.size < 0x1_0000_0000
    requires h.rows < 0x1_0000_0000 && h.cols < 0x1_0000_0000
    ensures |b| == 16
  {
    EncodeBE32(h.magic) + EncodeBE32(h.size) + EncodeBE32(h.rows) + EncodeBE32(h.cols)
  }

  /** The header of a file that starts with an encoded header is that header,
      whatever follows it. */
  lemma HeaderRoundTrip(h: Header, rest: seq<Byte>)
    requires h.magic < 0x1_0000_0000 && h.size < 0x1_0000_0000
    requires h.rows < 0x1_0000_0000 && h.cols < 0x1_0000_0000
    ensures ImageHeader(EncodeHeader(h) + rest) == Ok(h)
  {
    var f := EncodeHeader(h) + rest;
    BE32RoundTrip(h.magic);
    BE32RoundTrip(h.size);
    BE32RoundTrip(h.rows);
    BE32RoundTrip(h.cols);
    assert f[0..4] == EncodeBE32(h.magic);
    assert f[4..8] == EncodeBE32(h.size);
    assert f[8..12] == EncodeBE32(h.rows);
    assert f[12..16] == EncodeBE32(h.cols);
    assert BE32(f, 0) == BE32(f[0..4], 0);
    assert BE32(f, 4) == BE32(f[4..8], 0);
    assert BE32(f, 8) == BE32(f[8..12], 0);
    assert BE32(f, 12) == BE32(f[12..16], 0);
  }

  // ---------------------------------------------------------------------
  // Bit unpacking (`np.unpackbits`, `(b >> (7 - i)) & 1`)
  // ---------------------------------------------------------------------

  /** Bit `k` of `b` (`(b >> k) & 1` on a non-negative integer). */
  function BitOf(b: nat, k: nat): Bit {
    (b / Pow2(k)) % 2
  }

  /** The low `w` bits of `b`, most significant first. */
  function ToBits(b: nat, w: nat): (bits: seq<Bit>)
    ensures |bits| == w
  {
    if w == 0 then [] else ToBits(b / 2, w - 1) + [b % 2]
  }

  /** The number a bit string denotes, most significant first. */
  function FromBits(bits: seq<Bit>): (n: nat)
    ensures n < Pow2(|bits|)
  {
    if |bits| == 0 then 0 else 2 * FromBits(bits[..|bits| - 1]) + bits[|bits| - 1]
  }

  /** Position `i` of `ToBits(b, w)` is bit `w - 1 - i` of `b`. */
  lemma {:induction false} ToBitsAt(b: nat, w: nat, i: nat)
    requires i < w
    ensures ToBits(b, w)[i] == BitOf(b, w - 1 - i)
  {
    if i < w - 1 {
      ToBitsAt(b / 2, w - 1, i);
      DivDiv(b, 2, Pow2(w - 2 - i));
    }
  }

  lemma {:induction false} FromToBits(b: nat, w: nat)
    requires b < Pow2(w)
    ensures FromBits(ToBits(b, w)) == b
  {
    if w > 0 {
      var s := ToBits(b, w);
      var h := b / 2;
      assert b == 2 * h + b % 2;
      assert h < Pow2(w - 1);
      assert s[..w - 1] == ToBits(h, w - 1) && s[w - 1] == b % 2;
      FromToBits(h, w - 1);
      assert FromBits(s) == 2 * FromBits(s[..w - 1]) + s[w - 1];
    }
  }

  lemma {:induction false} ToFromBits(bits: seq<Bit>)
    ensures ToBits(FromBits(bits), |bits|) == bits
  {
    if |bits| > 0 {
      var init := bits[..|bits| - 1];
      var n := FromBits(bits);
      assert n / 2 == FromBits(init) && n % 2 == bits[|bits| - 1];
      ToFromBits(init);
      assert bits == init + [bits[|bits| - 1]];
    }
  }

  /** `np.unpackbits`: every byte becomes its eight bits, most significant first. */
  function Unpack(bytes: seq<Byte>): (bits: seq<Bit>)
    ensures |bits| == 8 * |bytes|
  {
    if |bytes| == 0 then [] else ToBits(bytes[0], 8) + Unpack(bytes[1..])
  }

  /** Pixel `8j + i` of the unpacked stream is bit `7 - i` of byte `j`. */
  lemma {:induction false} UnpackAt(bytes: seq<Byte>, j: nat, i: nat)
    requires j < |bytes| && i < 8
    ensures 8 * j + i < |Unpack(bytes)|
    ensures Unpack(bytes)[8 * j + i] == BitOf(bytes[j], 7 - i)
  {
    if j == 0 {
      ToBitsAt(bytes[0], 8, i);
    } else {
      UnpackAt(bytes[1..], j - 1, i);
      assert Unpack(bytes)[8 * j + i] == Unpack(bytes[1..])[8 * (j - 1) + i];
    }
  }

  /** `np.packbits`: every eight bits become one byte, most significant first. */
  function PackBits(bits: seq<Bit>): (bytes: seq<Byte>)
    requires |bits| % 8 == 0
    ensures |bytes| == |bits| / 8
  {
    if |bits| == 0 then []
    else
      assert Pow2(8) == 256;
      [FromBits(bits[..8])] + PackBits(bits[8..])
  }

  /** Unpacking undoes packing. */
  lemma {:induction false} UnpackPack(bits: seq<Bit>)
    requires |bits| % 8 == 0
    ensures Unpack(PackBits(bits)) == bits
  {
    if |bits| > 0 {
      var p := PackBits(bits);
      assert p[1..] == PackBits(bits[8..]);
      UnpackPack(bits[8..]);
      ToFromBits(bits[..8]);
      assert bits == bits[..8] + bits[8..];
    }
  }

  /** Packing undoes unpacking. */
  lemma {:induction false} PackUnpack(bytes: seq<Byte>)
    ensures PackBits(Unpack(bytes)) == bytes
  {
    if |bytes| > 0 {
      var u := Unpack(bytes);
      assert u[..8] == ToBits(bytes[0], 8);
      assert u[8..] == Unpack(bytes[1..]);
      assert Pow2(8) == 256;
      FromToBits(bytes[0], 8);
      PackUnpack(bytes[1..]);
      assert bytes == [bytes[0]] + bytes[1..];
    }
  }

  // ---------------------------------------------------------------------
  // Image and label files
  // ---------------------------------------------------------------------

  function BitAt(bits: seq<Bit>, n: nat, r: nat, c: nat, d0: nat, d1: nat, d2: nat): Bit
    requires n < d0 && r < d1 && c < d2 && |bits| >= d0 * d1 * d2
  {
    CoordsIdx3(n, r, c, d0, d1, d2);
    bits[Idx3(n, r, c, d1, d2)]
  }

  /** `bits[:d0*d1*d2].reshape(d0, d1, d2)`. */
  function Reshape(bits: seq<Bit>, d0: nat, d1: nat, d2: nat): (x: seq<seq<seq<Bit>>>)
    requires |bits| >= d0 * d1 * d2
    ensures IsBox3(x, d0, d1, d2)
    ensures forall n, r, c :: 0 <= n < d0 && 0 <= r < d1 && 0 <= c < d2 ==>
              Idx3(n, r, c, d1, d2) < |bits| && x[n][r][c] == bits[Idx3(n, r, c, d1, d2)]
  {
    var x := seq(d0, n requires 0 <= n < d0 => seq(d1, r requires 0 <= r < d1 =>
               seq(d2, c requires 0 <= c < d2 => BitAt(bits, n, r, c, d0, d1, d2))));
    assert forall n, r, c :: 0 <= n < d0 && 0 <= r < d1 && 0 <= c < d2 ==>
             Idx3(n, r, c, d1, d2) < |bits| && x[n][r][c] == bits[Idx3(n, r, c, d1, d2)] by {
      forall n, r, c | 0 <= n < d0 && 0 <= r < d1 && 0 <= c < d2
        ensures Idx3(n, r, c, d1, d2) < |bits|
      {
        CoordsIdx3(n, r, c, d0, d1, d2);
      }
    }
    x
  }

  /** Flattening a reshaped stream gives back the part of it that was used. */
  lemma ReshapeFlatten(bits: seq<Bit>, d0: nat, d1: nat, d2: nat)
    requires |bits| >= d0 * d1 * d2
    ensures Flatten3(Reshape(bits, d0, d1, d2)) == bits[..d0 * d1 * d2]
  {
    var x := Reshape(bits, d0, d1, d2);
    Flatten3Length(x, d0, d1, d2);
    if d1 > 0 && d2 > 0 {
      Flatten3At(x, d0, d1, d2);
      forall p | 0 <= p < d0 * d1 * d2
        ensures Flatten3(x)[p] == bits[p]
      {
        Idx3Coords(p, d0, d1, d2);
      }
    } else {
      assert d0 * d1 * d2 == 0;
    }
  }

  /** The number of pixels the header announces. */
  function PixelCount(h: Header): nat {
    h.size * h.rows * h.cols
  }

  /** `load_images` / `load_mnist_images`: parse the header, check the magic
      number where the script does (`checkMagic`), unpack the rest of the file
      and cut it into `size` images of `rows x cols`; too few bits make the
      reshape fail. */
  function LoadImages(file: seq<Byte>, checkMagic: bool): (res: Result<seq<seq<seq<Bit>>>>)
    ensures res.Ok? <==>
              |file| >= 16
              && (checkMagic ==> BE32(file, 0) == IMAGE_MAGIC)
              && 8 * (|file| - 16) >= PixelCount(ImageHeader(file).value)
    ensures |file| < 16 ==> res == Err(ShortHeader)
    ensures |file| >= 16 && checkMagic && BE32(file, 0) != IMAGE_MAGIC ==> res == Err(BadMagic(BE32(file, 0)))
    ensures res.Ok? ==>
              var h := ImageHeader(file).value;
              IsBox3(res.value, h.size, h.rows, h.cols)
              && Flatten3(res.value) == Unpack(file[16..])[..PixelCount(h)]
  {
    var h :- ImageHeader(file);
    if checkMagic && h.magic != IMAGE_MAGIC then Err(BadMagic(h.magic))
    else
      var bits := Unpack(file[16..]);
      if |bits| < PixelCount(h) then Err(Truncated)
      else
        ReshapeFlatten(bits, h.size, h.rows, h.cols);
        Ok(Reshape(bits, h.size, h.rows, h.cols))
  }

  /** Pixel `(r, c)` of image `n` is bit `7 - p % 8` of data byte `p / 8`,
      where `p = (n*rows + r)*cols + c` is its row-major position. */
  lemma ImagePixel(file: seq<Byte>, checkMagic: bool, n: nat, r: nat, c: nat)
    requires LoadImages(file, checkMagic).Ok?
    requires n < ImageHeader(file).value.size && r < ImageHeader(file).value.rows && c < ImageHeader(file).value.cols
    ensures var h := ImageHeader(file).value;
            var p := Idx3(n, r, c, h.rows, h.cols);
            16 + p / 8 < |file|
            && LoadImages(file, checkMagic).value[n][r][c] == BitOf(file[16 + p / 8], 7 - p % 8)
  {
    var h := ImageHeader(file).value;
    var p := Idx3(n, r, c, h.rows, h.cols);
    var data := file[16..];
    var bits := Unpack(data);
    CoordsIdx3(n, r, c, h.size, h.rows, h.cols);
    assert LoadImages(file, checkMagic).value == Reshape(bits, h.size, h.rows, h.cols);
    assert p == 8 * (p / 8) + p % 8;
    UnpackAt(data, p / 8, p % 8);
  }

  /** `load_labels` / `load_mnist_labels`: an 8-byte header whose first field
      is the magic number (checked where the script does), then one byte per
      label. */
  function LoadLabels(file: seq<Byte>, checkMagic: bool): (res: Result<seq<Byte>>)
    ensures res.Ok? <==> |file| >= 8 && (checkMagic ==> BE32(file, 0) == LABEL_MAGIC)
    ensures |file| < 8 ==> res == Err(ShortHeader)
    ensures |file| >= 8 && checkMagic && BE32(file, 0) != LABEL_MAGIC ==> res == Err(BadMagic(BE32(file, 0)))
    ensures res.Ok? ==> |res.value| == |file| - 8
                        && forall i :: 0 <= i < |res.value| ==> res.value[i] == file[8 + i]
  {
    if |file| < 8 then Err(ShortHeader)
    else if checkMagic && BE32(file, 0) != LABEL_MAGIC then Err(BadMagic(BE32(file, 0)))
    else Ok(file[8..])
  }

  // ---------------------------------------------------------------------
  // The byte slice read by the cocotb test
  // ---------------------------------------------------------------------

  function Min(a: nat, b: nat): nat {
    if a <= b then a else b
  }

  /** Bytes per image as the cocotb test computes it: `rows * cols // 8`. */
  function ImageBytes(h: Header): nat {
    (h.rows * h.cols) / 8
  }

  /** `load_image_and_label`'s pixel part: after the 16-byte header, image
      `index` is the byte slice `[index*nbytes, index*nbytes + nbytes)` of the
      data, cut short (Python slicing) at the end of the file, unpacked most
      significant bit first.  The magic number is not checked. */
  function ImageSlice(file: seq<Byte>, index: nat): (res: Result<seq<Bit>>)
    ensures res.Ok? <==> |file| >= 16
    ensures res.Err? ==> res.error == ShortHeader
    ensures res.Ok? ==> |res.value| <= 8 * ImageBytes(ImageHeader(file).value)
    ensures res.Ok? ==>
              var nb := ImageBytes(ImageHeader(file).value);
              16 + index * nb + nb <= |file| ==> UnpacksBytes(res.value, file, 16 + index * nb, nb)
  {
    var h :- ImageHeader(file);
    var nb := ImageBytes(h);
    var slice := Slice(file[16..], index * nb, nb);
    SliceBits(file, slice, index * nb, nb);
    Ok(Unpack(slice))
  }

  /** `data[start:start + n]` with Python's clipping at the end. */
  function Slice(data: seq<Byte>, start: nat, n: nat): (r: seq<Byte>)
    ensures |r| <= n
    ensures start + n <= |data| ==> r == data[start..start + n]
  {
    data[Min(start, |data|)..Min(start + n, |data|)]
  }

  /** `bits` are the `n` bytes of `file` from `from` on, unpacked most
      significant bit first: bit `p` is bit `7 - p % 8` of byte `from + p / 8`. */
  predicate UnpacksBytes(bits: seq<Bit>, file: seq<Byte>, from: nat, n: nat) {
    from + n <= |file| && |bits| == 8 * n
    && forall p :: 0 <= p < 8 * n ==>
         from + p / 8 < |file| && bits[p] == BitOf(file[from + p / 8], 7 - p % 8)
  }

  lemma SliceBits(file: seq<Byte>, slice: seq<Byte>, start: nat, nb: nat)
    requires |file| >= 16
    requires 16 + start + nb <= |file| ==> slice == file[16..][start..start + nb]
    ensures 16 + start + nb <= |file| ==> UnpacksBytes(Unpack(slice), file, 16 + start, nb)
  {
    if 16 + start + nb <= |file| {
      forall p | 0 <= p < 8 * nb
        ensures 16 + start + p / 8 < |file| && Unpack(slice)[p] == BitOf(file[16 + start + p / 8], 7 - p % 8)
      {
        assert p == 8 * (p / 8) + p % 8;
        UnpackAt(slice, p / 8, p % 8);
        assert slice[p / 8] == file[16 + start + p / 8];
      }
    }
  }

  /** `load_image_and_label`'s label part: a missing label file, or one too
      short to hold label `index` after its 8-byte header, gives no label. */
  function LabelAt(file: Option<seq<Byte>>, index: nat): (got: Option<Byte>)
    ensures got.Some? <==> file.Some? && 8 + index < |file.value|
    ensures got.Some? ==> got.value == file.value[8 + index]
  {
    match file
    case None => None
    case Some(f) =>
      var raw := f[Min(8, |f|)..];
      if index < |raw| then Some(raw[index]) else None
  }
}
