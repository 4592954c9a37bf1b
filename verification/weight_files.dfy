/** The `.mem` text loaders: weight files of '0'/'1' lines and threshold files
    of base-2 numbers.  A file is given as its list of lines; each loader first
    strips every line and drops the blank ones, as the scripts' list
    comprehension `[l.strip() for l in f if l.strip()]` does. */
module WeightFiles {
  import opened Errors
  import opened Bits
  import opened Sequences
  import Layout
  import opened BinaryConv
  import LayerOne
  import LayerTwo

  // ---------------------------------------------------------------------
  // Stripping and blank-line removal
  // ---------------------------------------------------------------------

  /** The characters Python's `str.strip()` removes (`str.isspace`). */
  predicate IsSpace(c: char) {
    var n := c as int;
    (9 <= n <= 13) || (28 <= n <= 32) || n == 0x85 || n == 0xA0 || n == 0x1680
    || (0x2000 <= n <= 0x200A) || n == 0x2028 || n == 0x2029 || n == 0x202F
    || n == 0x205F || n == 0x3000
  }

  /** Number of leading space characters. */
  function Lead(s: string): (n: nat)
    ensures n <= |s|
    ensures forall i :: 0 <= i < n ==> IsSpace(s[i])
    ensures n < |s| ==> !IsSpace(s[n])
  {
    if |s| == 0 || !IsSpace(s[0]) then 0
    else
      var m := Lead(s[1..]);
      assert forall i :: 1 <= i < 1 + m ==> s[i] == s[1..][i - 1];
      1 + m
  }

  /** Number of trailing space characters. */
  function Trail(s: string): (n: nat)
    ensures n <= |s|
    ensures forall i :: |s| - n <= i < |s| ==> IsSpace(s[i])
    ensures n < |s| ==> !IsSpace(s[|s| - 1 - n])
  {
    if |s| == 0 || !IsSpace(s[|s| - 1]) then 0
    else
      var m := Trail(s[..|s| - 1]);
      assert forall i :: |s| - 1 - m <= i < |s| - 1 ==> s[i] == s[..|s| - 1][i];
      1 + m
  }

  /** `r` is `s` with the spaces before position `i` and after `i + |r|` removed. */
  predicate Trimmed(s: string, i: nat, r: string) {
    i + |r| <= |s| && r == s[i..i + |r|]
    && (forall k :: 0 <= k < i ==> IsSpace(s[k]))
    && (forall k :: i + |r| <= k < |s| ==> IsSpace(s[k]))
  }

  /** Neither the first nor the last character is a space. */
  predicate Stripped(s: string) {
    |s| > 0 ==> !IsSpace(s[0]) && !IsSpace(s[|s| - 1])
  }

  /** `str.strip()`: the longest middle part of `s` that neither starts nor
      ends with a space, obtained by cutting off only spaces. */
  function Strip(s: string): (r: string)
    ensures |r| <= |s|
    ensures Stripped(r)
    ensures Trimmed(s, Lead(s), r)
  {
    var i := Lead(s);
    TrailOfSuffix(s, i);
    var j := Trail(s[i..]);
    TrimmedMiddle(s, i, j);
    s[i..|s| - j]
  }

  /** The trailing spaces of a suffix, counted in the whole string. */
  lemma TrailOfSuffix(s: string, i: nat)
    requires i <= |s|
    ensures Trail(s[i..]) <= |s| - i
    ensures forall k :: |s| - Trail(s[i..]) <= k < |s| ==> IsSpace(s[k])
    ensures Trail(s[i..]) < |s| - i ==> !IsSpace(s[|s| - 1 - Trail(s[i..])])
  {
    var t := s[i..];
    var j := Trail(t);
    forall k | |s| - j <= k < |s|
      ensures IsSpace(s[k])
    {
      assert s[k] == t[k - i];
    }
    if j < |t| {
      assert s[|s| - 1 - j] == t[|t| - 1 - j];
    }
  }

  /** Cutting `i` leading and `j` trailing spaces leaves a trimmed middle. */
  lemma TrimmedMiddle(s: string, i: nat, j: nat)
    requires i + j <= |s|
    requires forall k :: 0 <= k < i ==> IsSpace(s[k])
    requires forall k :: |s| - j <= k < |s| ==> IsSpace(s[k])
    requires i < |s| - j ==> !IsSpace(s[i]) && !IsSpace(s[|s| - 1 - j])
    ensures Stripped(s[i..|s| - j])
    ensures Trimmed(s, i, s[i..|s| - j])
  {
    var r := s[i..|s| - j];
    if |r| > 0 {
      assert r[0] == s[i];
      assert r[|r| - 1] == s[|s| - 1 - j];
    }
  }

  /** A stripped line is empty exactly when the line is all spaces. */
  lemma StripBlank(s: string)
    ensures Strip(s) == [] <==> forall k :: 0 <= k < |s| ==> IsSpace(s[k])
  {
    var i := Lead(s);
    if Strip(s) != [] {
      assert s[i] == Strip(s)[0];
    }
  }

  /** A string that neither starts nor ends with a space is its own strip. */
  lemma StripFixed(s: string)
    requires Stripped(s)
    ensures Strip(s) == s
  {
    if |s| > 0 {
      assert Lead(s) == 0;
      assert s[0..] == s;
      assert Trail(s) == 0;
    }
  }

  /** Stripping twice is stripping once. */
  lemma StripIdempotent(s: string)
    ensures Strip(Strip(s)) == Strip(s)
  {
    StripFixed(Strip(s));
  }

  /** A line made only of '0'/'1' characters is left alone by `strip`. */
  lemma StripBits(s: string)
    requires AllBitChars(s)
    ensures Strip(s) == s
  {
    if |s| > 0 {
      assert IsBitChar(s[0]) && IsBitChar(s[|s| - 1]);
    }
    StripFixed(s);
  }

  /** `[l.strip() for l in lines if l.strip()]`. */
  function Cleaned(lines: seq<string>): (ls: seq<string>)
    ensures |ls| <= |lines|
    ensures forall k :: 0 <= k < |ls| ==> |ls[k]| > 0 && Stripped(ls[k])
  {
    if |lines| == 0 then []
    else
      var s := Strip(lines[0]);
      (if s != [] then [s] else []) + Cleaned(lines[1..])
  }

  /** Lines that are already stripped and non-blank survive unchanged; in
      particular cleaning is idempotent. */
  lemma {:induction false} CleanedKeeps(lines: seq<string>)
    requires forall k :: 0 <= k < |lines| ==> |lines[k]| > 0 && Stripped(lines[k])
    ensures Cleaned(lines) == lines
  {
    if |lines| > 0 {
      StripFixed(lines[0]);
      CleanedKeeps(lines[1..]);
      assert [lines[0]] + lines[1..] == lines;
    }
  }

  lemma CleanedIdempotent(lines: seq<string>)
    ensures Cleaned(Cleaned(lines)) == Cleaned(lines)
  {
    CleanedKeeps(Cleaned(lines));
  }

  // ---------------------------------------------------------------------
  // Per-character scan of the `for i, bit in enumerate(line)` loops
  // ---------------------------------------------------------------------

  /** Position of the first character that is not '0'/'1' (`|s|` if none). */
  function FirstBad(s: string): (n: nat)
    ensures n <= |s|
    ensures forall i :: 0 <= i < n ==> IsBitChar(s[i])
    ensures n < |s| ==> !IsBitChar(s[n])
  {
    if |s| == 0 || !IsBitChar(s[0]) then 0
    else
      var m := FirstBad(s[1..]);
      assert forall i :: 1 <= i < 1 + m ==> s[i] == s[1..][i - 1];
      1 + m
  }

  /** A line whose every character is a bit and is stored in one of the
      `limit` slots its row offers. */
  predicate LineFits(line: string, limit: nat) {
    AllBitChars(line) && |line| <= limit
  }

  /** The outcome of storing `int(line[i])` at slot `i` for each `i` in turn,
      where only the first `limit` slots exist: `int` is evaluated before the
      store, so a bad character at or before the first missing slot raises
      `ValueError`, and otherwise the first missing slot raises `IndexError`. */
  function LineError(line: string, limit: nat): (e: Option<Error>)
    ensures e.None? <==> LineFits(line, limit)
    ensures e.Some? ==> e.value == BadDigit || e.value == IndexOutOfRange
    ensures e == Some(BadDigit) <==> FirstBad(line) < |line| && FirstBad(line) <= limit
  {
    var b := FirstBad(line);
    if b < |line| && b <= limit then Some(BadDigit)
    else if |line| > limit then Some(IndexOutOfRange)
    else None
  }

  /** Row `k` of a table with `rows` rows of `width` slots has `width` slots
      if it exists and none otherwise. */
  function RowLimit(k: nat, rows: nat, width: nat): nat {
    if k < rows then width else 0
  }

  /** The first failing line of the lenient loaders, scanning from line `k`. */
  function LinesError(ls: seq<string>, rows: nat, width: nat, k: nat): (e: Option<Error>)
    requires k <= |ls|
    ensures e.None? <==> forall j :: k <= j < |ls| ==> LineFits(ls[j], RowLimit(j, rows, width))
    decreases |ls| - k
  {
    if k == |ls| then None
    else
      var e := LineError(ls[k], RowLimit(k, rows, width));
      if e.Some? then e else LinesError(ls, rows, width, k + 1)
  }

  /** Without error, a cleaned table fits: at most `rows` lines (a surplus
      line is non-blank, so it hits a missing slot) of at most `width` bits. */
  lemma LinesErrorNone(ls: seq<string>, rows: nat, width: nat)
    requires forall k :: 0 <= k < |ls| ==> |ls[k]| > 0
    ensures LinesError(ls, rows, width, 0).None? <==>
              |ls| <= rows && forall k :: 0 <= k < |ls| ==> LineFits(ls[k], width)
  {
    if |ls| > rows {
      assert !LineFits(ls[rows], RowLimit(rows, rows, width));
    }
    if |ls| <= rows && forall k :: 0 <= k < |ls| ==> LineFits(ls[k], width) {
      assert forall j :: 0 <= j < |ls| ==> RowLimit(j, rows, width) == width;
    }
  }

  // ---------------------------------------------------------------------
  // Layer-one weights: 8 kernels of 9 bits, row-major 3x3
  // ---------------------------------------------------------------------

  /** The slot `w[k, i // 3, i % 3]` the loaders store character `i` of line `k` in. */
  function KernelAt(ws: seq<Kernel>, k: nat, i: nat): Bit
    requires k < |ws| && IsKernel(ws[k]) && i < 9
  {
    ws[k][i / 3][i % 3]
  }

  /** Character `i` of line `k` if there is one, else the `np.zeros` default. */
  function SlotBit(ls: seq<string>, k: nat, i: nat): Bit
    requires forall j :: 0 <= j < |ls| ==> AllBitChars(ls[j])
  {
    if k < |ls| && i < |ls[k]| then assert AllBitChars(ls[k]); CharBit(ls[k][i]) else 0
  }

  /** The eight kernels read off a table of bit lines, entry `[k][r][c]`
      taken from character `3r + c` of line `k`. */
  function L1Kernels(ls: seq<string>): (ws: seq<Kernel>)
    requires forall j :: 0 <= j < |ls| ==> AllBitChars(ls[j])
    ensures LayerOne.IsWeights(ws)
  {
    seq(8, k requires 0 <= k < 8 => seq(3, r requires 0 <= r < 3 => SlotRow(ls, k, r)))
  }

  function SlotRow(ls: seq<string>, k: nat, r: nat): (row: seq<Bit>)
    requires forall j :: 0 <= j < |ls| ==> AllBitChars(ls[j])
    ensures |row| == 3
  {
    seq(3, c requires 0 <= c < 3 => SlotBitAt(ls, k, r, c))
  }

  function SlotBitAt(ls: seq<string>, k: nat, r: nat, c: nat): Bit
    requires forall j :: 0 <= j < |ls| ==> AllBitChars(ls[j])
  {
    SlotBit(ls, k, 3 * r + c)
  }

  /** Storing character `i` at `[i // 3][i % 3]` is what the gather reads back. */
  lemma L1KernelsAt(ls: seq<string>)
    requires forall j :: 0 <= j < |ls| ==> AllBitChars(ls[j])
    ensures forall k, i :: 0 <= k < 8 && 0 <= i < 9 ==> KernelAt(L1Kernels(ls), k, i) == SlotBit(ls, k, i)
  {
    forall k, i | 0 <= k < 8 && 0 <= i < 9
      ensures KernelAt(L1Kernels(ls), k, i) == SlotBit(ls, k, i)
    {
      assert 3 * (i / 3) + i % 3 == i;
    }
  }

  /** `load_l1_weights` / the lenient `load_weights`: every line is a kernel
      whose characters fill `w[k, i // 3, i % 3]` in turn; kernels and slots
      the file does not reach stay 0. */
  function LoadL1Weights(lines: seq<string>): (res: Result<seq<Kernel>>)
    ensures res.Ok? <==>
              |Cleaned(lines)| <= 8
              && forall k :: 0 <= k < |Cleaned(lines)| ==> LineFits(Cleaned(lines)[k], 9)
    ensures res.Ok? ==> LayerOne.IsWeights(res.value)
    ensures res.Ok? ==> forall k, i :: 0 <= k < 8 && 0 <= i < 9 ==>
              KernelAt(res.value, k, i) ==
                (if k < |Cleaned(lines)| && i < |Cleaned(lines)[k]| then CharBit(Cleaned(lines)[k][i]) else 0)
  {
    var ls := Cleaned(lines);
    LinesErrorNone(ls, 8, 9);
    match LinesError(ls, 8, 9, 0)
    case Some(e) => Err(e)
    case None =>
      L1KernelsAt(ls);
      Ok(L1Kernels(ls))
  }

  /** The first failing line of the strict `load_weights`: each line must
      have exactly nine characters, checked before any of them is read. */
  function StrictError(ls: seq<string>, k: nat): (e: Option<Error>)
    requires k <= |ls|
    ensures e.None? <==> forall j :: k <= j < |ls| ==> |ls[j]| == 9 && AllBitChars(ls[j])
    decreases |ls| - k
  {
    if k == |ls| then None
    else if |ls[k]| != 9 then Some(WrongLineLength(9, |ls[k]|))
    else if FirstBad(ls[k]) < 9 then Some(BadDigit)
    else StrictError(ls, k + 1)
  }

  /** The kernels of a table of exactly eight lines of nine bits. */
  function StrictKernels(ls: seq<string>): (ws: seq<Kernel>)
    requires |ls| == 8 && forall j :: 0 <= j < 8 ==> |ls[j]| == 9 && AllBitChars(ls[j])
    ensures LayerOne.IsWeights(ws)
  {
    seq(8, k requires 0 <= k < 8 => seq(3, r requires 0 <= r < 3 => StrictRow(ls[k], r)))
  }

  function StrictRow(line: string, r: nat): (row: seq<Bit>)
    requires |line| == 9 && AllBitChars(line) && r < 3
    ensures |row| == 3
  {
    seq(3, c requires 0 <= c < 3 => StrictBit(line, r, c))
  }

  function StrictBit(line: string, r: nat, c: nat): Bit
    requires |line| == 9 && AllBitChars(line) && r < 3 && c < 3
  {
    assert IsBitChar(line[3 * r + c]);
    CharBit(line[3 * r + c])
  }

  lemma StrictKernelsAt(ls: seq<string>)
    requires |ls| == 8 && forall j :: 0 <= j < 8 ==> |ls[j]| == 9 && AllBitChars(ls[j])
    ensures forall k, i :: 0 <= k < 8 && 0 <= i < 9 ==> BitChar(KernelAt(StrictKernels(ls), k, i)) == ls[k][i]
  {
    forall k, i | 0 <= k < 8 && 0 <= i < 9
      ensures BitChar(KernelAt(StrictKernels(ls), k, i)) == ls[k][i]
    {
      assert 3 * (i / 3) + i % 3 == i;
    }
  }

  /** The strict `load_weights` of the comparison script: exactly eight
      kernels (checked first) of exactly nine '0'/'1' characters. */
  function LoadWeights(lines: seq<string>): (res: Result<seq<Kernel>>)
    ensures res.Ok? <==>
              |Cleaned(lines)| == 8
              && forall k :: 0 <= k < 8 ==> |Cleaned(lines)[k]| == 9 && AllBitChars(Cleaned(lines)[k])
    ensures |Cleaned(lines)| != 8 ==> res == Err(WrongLineCount(8, |Cleaned(lines)|))
    ensures res.Ok? ==> LayerOne.IsWeights(res.value)
    ensures res.Ok? ==> forall k, i :: 0 <= k < 8 && 0 <= i < 9 ==>
              BitChar(KernelAt(res.value, k, i)) == Cleaned(lines)[k][i]
  {
    var ls := Cleaned(lines);
    if |ls| != 8 then Err(WrongLineCount(8, |ls|))
    else match StrictError(ls, 0)
      case Some(e) => Err(e)
      case None =>
        StrictKernelsAt(ls);
        Ok(StrictKernels(ls))
  }

  /** A file the strict loader accepts is loaded identically by the lenient one. */
  lemma StrictIsLax(lines: seq<string>)
    requires LoadWeights(lines).Ok?
    ensures LoadL1Weights(lines) == LoadWeights(lines)
  {
    var ls := Cleaned(lines);
    LinesErrorNone(ls, 8, 9);
    StrictAgrees(ls);
  }

  /** On a table of eight 9-bit lines the two gathers read the same kernels. */
  lemma StrictAgrees(ls: seq<string>)
    requires |ls| == 8 && forall j :: 0 <= j < 8 ==> |ls[j]| == 9 && AllBitChars(ls[j])
    ensures L1Kernels(ls) == StrictKernels(ls)
  {
    var a := L1Kernels(ls);
    var b := StrictKernels(ls);
    forall k, r, c | 0 <= k < 8 && 0 <= r < 3 && 0 <= c < 3
      ensures a[k][r][c] == b[k][r][c]
    {
      assert a[k][r] == SlotRow(ls, k, r) && b[k][r] == StrictRow(ls[k], r);
      assert a[k][r][c] == SlotBitAt(ls, k, r, c) && b[k][r][c] == StrictBit(ls[k], r, c);
    }
    BoxEqual(a, b, 8, 3, 3);
  }

  // ---------------------------------------------------------------------
  // Layer-two trained weights: 4 filters of 72 bits, tap-major
  // ---------------------------------------------------------------------

  /** Position `pos` of a 72-bit line decodes to tap row, tap column and
      channel `(pos // 24, (pos % 24) // 8, pos % 8)`, all in range, and the
      encoding `kr*24 + kc*8 + ch` gives `pos` back. */
  lemma PosDecode(pos: nat)
    requires pos < 72
    ensures pos / 24 < 3 && (pos % 24) / 8 < 3 && pos % 8 < 8
    ensures (pos / 24) * 24 + ((pos % 24) / 8) * 8 + pos % 8 == pos
  {
    assert pos % 8 == (pos % 24) % 8;
  }

  /** Decoding `kr*24 + kc*8 + ch` gives `(kr, kc, ch)` back: the map
      `pos -> (kr, kc, ch)` is a bijection from [0, 72) onto 3 x 3 x 8. */
  lemma PosEncode(kr: nat, kc: nat, ch: nat)
    requires kr < 3 && kc < 3 && ch < 8
    ensures kr * 24 + kc * 8 + ch < 72
    ensures (kr * 24 + kc * 8 + ch) / 24 == kr
    ensures ((kr * 24 + kc * 8 + ch) % 24) / 8 == kc
    ensures (kr * 24 + kc * 8 + ch) % 8 == ch
  {
    Layout.DivModOf(kr, 24, kc * 8 + ch);
    Layout.DivModOf(kc, 8, ch);
    Layout.DivModOf(kr * 3 + kc, 8, ch);
    assert kr * 24 + kc * 8 + ch == (kr * 3 + kc) * 8 + ch;
  }

  /** The slot `w[f, pos // 24, (pos % 24) // 8, pos % 8]` of character `pos`. */
  function TrainedAt(tw: LayerTwo.Trained, f: nat, pos: nat): Bit
    requires LayerTwo.IsTrained(tw) && f < 4 && pos < 72
  {
    PosDecode(pos);
    tw[f][pos / 24][(pos % 24) / 8][pos % 8]
  }

  /** The first failing line of `load_l2_weights_trained`: the length
      assertion comes first, then a line beyond the fourth filter fails at
      its first character. */
  function L2Error(ls: seq<string>, k: nat): (e: Option<Error>)
    requires k <= |ls|
    ensures e.None? <==>
              forall j :: k <= j < |ls| ==> |ls[j]| == 72 && LineFits(ls[j], RowLimit(j, 4, 72))
    decreases |ls| - k
  {
    if k == |ls| then None
    else if |ls[k]| != 72 then Some(WrongLineLength(72, |ls[k]|))
    else
      var e := LineError(ls[k], RowLimit(k, 4, 72));
      if e.Some? then e else L2Error(ls, k + 1)
  }

  /** Without error, a cleaned file has at most four lines of 72 bits. */
  lemma L2ErrorNone(ls: seq<string>)
    requires forall k :: 0 <= k < |ls| ==> |ls[k]| > 0
    ensures L2Error(ls, 0).None? <==>
              |ls| <= 4 && forall f :: 0 <= f < |ls| ==> |ls[f]| == 72 && AllBitChars(ls[f])
  {
    if |ls| > 4 {
      assert !LineFits(ls[4], RowLimit(4, 4, 72));
    }
    if |ls| <= 4 {
      assert forall j :: 0 <= j < |ls| ==> RowLimit(j, 4, 72) == 72;
    }
  }

  /** The trained weights read off at most four 72-bit lines, tap-major;
      filters beyond the last line are zero. */
  function L2Trained(ls: seq<string>): (tw: LayerTwo.Trained)
    requires |ls| <= 4 && forall f :: 0 <= f < |ls| ==> |ls[f]| == 72 && AllBitChars(ls[f])
    ensures LayerTwo.IsTrained(tw)
  {
    seq(4, f requires 0 <= f < 4 => seq(3, kr requires 0 <= kr < 3 =>
      seq(3, kc requires 0 <= kc < 3 => TapChannels(ls, f, kr, kc))))
  }

  /** The eight channel bits of tap `(kr, kc)` of filter `f`. */
  function TapChannels(ls: seq<string>, f: nat, kr: nat, kc: nat): (v: seq<Bit>)
    requires |ls| <= 4 && forall g :: 0 <= g < |ls| ==> |ls[g]| == 72 && AllBitChars(ls[g])
    requires kr < 3 && kc < 3
    ensures |v| == 8
  {
    seq(8, ch requires 0 <= ch < 8 => TrainedBit(ls, f, kr, kc, ch))
  }

  function TrainedBit(ls: seq<string>, f: nat, kr: nat, kc: nat, ch: nat): Bit
    requires |ls| <= 4 && forall g :: 0 <= g < |ls| ==> |ls[g]| == 72 && AllBitChars(ls[g])
    requires kr < 3 && kc < 3 && ch < 8
  {
    if f < |ls| then
      PosEncode(kr, kc, ch);
      assert AllBitChars(ls[f]);
      CharBit(ls[f][kr * 24 + kc * 8 + ch])
    else 0
  }

  lemma L2TrainedAt(ls: seq<string>)
    requires |ls| <= 4 && forall f :: 0 <= f < |ls| ==> |ls[f]| == 72 && AllBitChars(ls[f])
    ensures forall f, pos :: 0 <= f < |ls| && 0 <= pos < 72 ==> BitChar(TrainedAt(L2Trained(ls), f, pos)) == ls[f][pos]
    ensures forall f, kr, kc, ch :: |ls| <= f < 4 && 0 <= kr < 3 && 0 <= kc < 3 && 0 <= ch < 8 ==>
              L2Trained(ls)[f][kr][kc][ch] == 0
  {
    var tw := L2Trained(ls);
    forall f, pos | 0 <= f < |ls| && 0 <= pos < 72
      ensures BitChar(TrainedAt(tw, f, pos)) == ls[f][pos]
    {
      PosDecode(pos);
      var kr, kc, ch := pos / 24, (pos % 24) / 8, pos % 8;
      assert tw[f][kr][kc] == TapChannels(ls, f, kr, kc);
      assert tw[f][kr][kc][ch] == TrainedBit(ls, f, kr, kc, ch);
    }
    forall f, kr, kc, ch | |ls| <= f < 4 && 0 <= kr < 3 && 0 <= kc < 3 && 0 <= ch < 8
      ensures tw[f][kr][kc][ch] == 0
    {
      assert tw[f][kr][kc] == TapChannels(ls, f, kr, kc);
    }
  }

  /** `load_l2_weights_trained`: at most four lines, each exactly 72 '0'/'1'
      characters, character `pos` of line `f` stored at
      `[f][pos // 24][(pos % 24) // 8][pos % 8]`; missing filters stay 0. */
  function LoadL2WeightsTrained(lines: seq<string>): (res: Result<LayerTwo.Trained>)
    ensures res.Ok? <==>
              |Cleaned(lines)| <= 4
              && forall f :: 0 <= f < |Cleaned(lines)| ==> |Cleaned(lines)[f]| == 72 && AllBitChars(Cleaned(lines)[f])
    ensures res.Ok? ==> LayerTwo.IsTrained(res.value)
    ensures res.Ok? ==> forall f, pos :: 0 <= f < |Cleaned(lines)| && 0 <= pos < 72 ==>
              BitChar(TrainedAt(res.value, f, pos)) == Cleaned(lines)[f][pos]
    ensures res.Ok? ==> forall f, kr, kc, ch :: |Cleaned(lines)| <= f < 4 && 0 <= kr < 3 && 0 <= kc < 3 && 0 <= ch < 8 ==>
              res.value[f][kr][kc][ch] == 0
  {
    var ls := Cleaned(lines);
    L2ErrorNone(ls);
    match L2Error(ls, 0)
    case Some(e) => Err(e)
    case None =>
      L2TrainedAt(ls);
      Ok(L2Trained(ls))
  }

  // ---------------------------------------------------------------------
  // Thresholds: `int(line, 2)` and the `f"{t:08b}"` writer
  // ---------------------------------------------------------------------

  /** The value of a non-empty-or-empty string of binary digits, most
      significant first. */
  function BinValue(d: string): (v: nat)
    requires AllBitChars(d)
  {
    if |d| == 0 then 0 else 2 * BinValue(d[..|d| - 1]) + CharBit(d[|d| - 1])
  }

  /** `k` binary digits denote a number below `2^k`. */
  lemma {:induction false} BinValueBound(d: string)
    requires AllBitChars(d)
    ensures BinValue(d) < Pow2(|d|)
  {
    if |d| > 0 {
      BinValueBound(d[..|d| - 1]);
    }
  }

  /** Whether a literal starts with a sign character. */
  predicate Signed(s: string) {
    |s| > 0 && (s[0] == '-' || s[0] == '+')
  }

  /** The digits of a literal, after the optional sign. */
  function DigitsOf(s: string): (d: string)
    ensures |d| <= |s|
  {
    if Signed(s) then s[1..] else s
  }

  /** `int(s, 2)` on a stripped line: an optional sign followed by at least
      one binary digit; anything else raises `ValueError`. */
  function ParseBinary(s: string): (res: Result<int>)
    ensures res.Ok? <==> |DigitsOf(s)| > 0 && AllBitChars(DigitsOf(s))
    ensures res.Err? ==> res.error == BadDigit
    ensures res.Ok? ==> -(Pow2(|s|) as int) < res.value < Pow2(|s|)
    ensures res.Ok? && !(|s| > 0 && s[0] == '-') ==> res.value >= 0
    ensures res.Ok? ==> res.value == if s[0] == '-' then -(BinValue(DigitsOf(s)) as int) else BinValue(DigitsOf(s))
  {
    var d := DigitsOf(s);
    if |d| == 0 || !AllBitChars(d) then Err(BadDigit)
    else
      BinValueBound(d);
      Pow2Mono(|d|, |s|);
      var v: int := BinValue(d);
      Ok(if |s| > 0 && s[0] == '-' then -v else v)
  }

  lemma {:induction false} Pow2Mono(a: nat, b: nat)
    requires a <= b
    ensures Pow2(a) <= Pow2(b)
  {
    if a < b {
      Pow2Mono(a, b - 1);
    }
  }

  /** `format(n, 'b')`: the binary digits of `n` without leading zeros. */
  function Binary(n: nat): (d: string)
    ensures |d| > 0 && AllBitChars(d)
    ensures BinValue(d) == n
    ensures n > 0 ==> d[0] == '1'
  {
    if n < 2 then [BitChar(n)]
    else
      var h := Binary(n / 2);
      var d := h + [BitChar(n % 2)];
      assert d[..|d| - 1] == h;
      d
  }

  /** A number below `2^k` (`k >= 1`) needs at most `k` digits. */
  lemma {:induction false} BinaryLength(n: nat, k: nat)
    requires 1 <= k && n < Pow2(k)
    ensures |Binary(n)| <= k
  {
    if n >= 2 {
      BinaryLength(n / 2, k - 1);
    }
  }

  function ZeroChars(k: nat): (z: string)
    ensures |z| == k && AllBitChars(z)
  {
    seq(k, _ => '0')
  }

  /** Leading zeros do not change a binary value. */
  lemma {:induction false} LeadingZeros(k: nat, d: string)
    requires AllBitChars(d)
    ensures BinValue(ZeroChars(k) + d) == BinValue(d)
  {
    var s := ZeroChars(k) + d;
    if |d| == 0 {
      assert s == ZeroChars(k);
      ZerosValue(k);
    } else {
      assert s[..|s| - 1] == ZeroChars(k) + d[..|d| - 1];
      LeadingZeros(k, d[..|d| - 1]);
    }
  }

  lemma {:induction false} ZerosValue(k: nat)
    ensures BinValue(ZeroChars(k)) == 0
  {
    if k > 0 {
      assert ZeroChars(k)[..k - 1] == ZeroChars(k - 1);
      ZerosValue(k - 1);
    }
  }

  /** Zero-pad `d` on the left to `width` characters. */
  function PadLeft(d: string, width: nat): (p: string)
    requires AllBitChars(d)
    ensures AllBitChars(p) && BinValue(p) == BinValue(d)
    ensures |p| == if |d| >= width then |d| else width
  {
    if |d| >= width then d
    else
      LeadingZeros(width - |d|, d);
      ZeroChars(width - |d|) + d
  }

  /** The threshold writer's `f"{t:08b}"`: binary digits zero-padded to a
      field of eight characters, a minus sign counting as one of them. */
  function Format8(t: int): (s: string)
    ensures |s| > 0 && (s[0] == '-' || IsBitChar(s[0])) && IsBitChar(s[|s| - 1])
  {
    if t >= 0 then PadLeft(Binary(t), 8)
    else
      var d := PadLeft(Binary(-t), 7);
      assert IsBitChar(d[|d| - 1]);
      "-" + d
  }

  /** Every threshold the writer prints is read back as itself. */
  lemma FormatRoundTrip(t: int)
    ensures ParseBinary(Format8(t)) == Ok(t)
  {
    var s := Format8(t);
    if t >= 0 {
      var d := PadLeft(Binary(t), 8);
      assert s == d && IsBitChar(s[0]);
      assert DigitsOf(s) == d && BinValue(d) == t;
    } else {
      var d := PadLeft(Binary(-t), 7);
      assert s == "-" + d && s[1..] == d;
      assert DigitsOf(s) == d && BinValue(d) == -t;
    }
  }

  /** Thresholds in [-127, 255] fill exactly eight characters. */
  lemma FormatWidth(t: int)
    requires -127 <= t <= 255
    ensures |Format8(t)| == 8
  {
    assert Pow2(7) == 128 && Pow2(8) == 256;
    if t >= 0 {
      BinaryLength(t, 8);
    } else {
      BinaryLength(-t, 7);
    }
  }

  /** Every line is a literal `int(l, 2)` accepts. */
  predicate AllParse(ls: seq<string>) {
    forall k :: 0 <= k < |ls| ==> ParseBinary(ls[k]).Ok?
  }

  /** `[int(l, 2) for l in ls]`, stopping at the first line `int` rejects. */
  function ParseAll(ls: seq<string>): (res: Result<seq<int>>)
    ensures res.Ok? <==> AllParse(ls)
    ensures res.Ok? ==> |res.value| == |ls|
                        && forall k :: 0 <= k < |ls| ==> ParseBinary(ls[k]) == Ok(res.value[k])
    ensures res.Err? ==> res.error == BadDigit
  {
    var rs := seq(|ls|, k requires 0 <= k < |ls| => ParseBinary(ls[k]));
    assert forall k :: 0 <= k < |ls| ==> rs[k] == ParseBinary(ls[k]);
    var res := Collect(rs);
    assert res.Err? ==> exists k :: 0 <= k < |ls| && rs[k].Err? && rs[k].error == res.error by {
      if res.Err? {
        CollectError(rs);
      }
    }
    res
  }

  /** `load_l1_thresholds` / the lenient `load_thresholds`: one base-2
      number per non-blank line, any number of lines. */
  function LoadThresholds(lines: seq<string>): (res: Result<seq<int>>)
    ensures res.Ok? <==> AllParse(Cleaned(lines))
    ensures res.Ok? ==> |res.value| == |Cleaned(lines)|
  {
    ParseAll(Cleaned(lines))
  }

  /** The strict `load_thresholds`: exactly eight lines, checked before
      any of them is parsed. */
  function LoadThresholdsStrict(lines: seq<string>): (res: Result<seq<int>>)
    ensures |Cleaned(lines)| != 8 ==> res == Err(WrongLineCount(8, |Cleaned(lines)|))
    ensures res.Ok? <==> |Cleaned(lines)| == 8 && LoadThresholds(lines).Ok?
    ensures res.Ok? ==> res == LoadThresholds(lines) && |res.value| == 8
  {
    var ls := Cleaned(lines);
    if |ls| != 8 then Err(WrongLineCount(8, |ls|)) else ParseAll(ls)
  }

  /** A threshold file written one `f"{t:08b}"` per line loads back as the
      thresholds it was written from. */
  lemma ThresholdFileRoundTrip(ts: seq<int>)
    ensures LoadThresholds(seq(|ts|, k requires 0 <= k < |ts| => Format8(ts[k]))) == Ok(ts)
  {
    var lines := seq(|ts|, k requires 0 <= k < |ts| => Format8(ts[k]));
    forall k | 0 <= k < |ts| ensures |lines[k]| > 0 && Stripped(lines[k]) && ParseBinary(lines[k]) == Ok(ts[k]) {
      FormatEnds(ts[k]);
      FormatRoundTrip(ts[k]);
    }
    CleanedKeeps(lines);
    ParseAllOk(lines, ts);
  }

  /** A written threshold line has no surrounding spaces. */
  lemma FormatEnds(t: int)
    ensures |Format8(t)| > 0 && Stripped(Format8(t))
  {
    var s := Format8(t);
    assert !IsSpace(s[0]) && !IsSpace(s[|s| - 1]);
  }

  /** Lines that each parse to the matching value parse together to the values. */
  lemma ParseAllOk(ls: seq<string>, vs: seq<int>)
    requires |ls| == |vs| && forall k :: 0 <= k < |ls| ==> ParseBinary(ls[k]) == Ok(vs[k])
    ensures ParseAll(ls) == Ok(vs)
  {
    var res := ParseAll(ls);
    assert res.Ok?;
    assert res.value == vs;
  }
}
