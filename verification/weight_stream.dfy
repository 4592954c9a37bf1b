/** The serial weight stream of the top-level testbench: the three trained
    weight tables read out row by row into one 2320-bit stream, in the order
    the registers capture them (layer one, layer two, then the classifier). */
module WeightStream {
  import opened Errors
  import opened Bits
  import opened Layout
  import opened Sequences
  import opened CsvText

  const W1_BITS: nat := 72     // 8 kernels of 3x3
  const W2_BITS: nat := 288    // 4 filters of 3x3x8
  const W3_BITS: nat := 1960   // 10 neurons of 196 inputs
  const STREAM_BITS: nat := 2320

  // ---------------------------------------------------------------------
  // Row-major read-out of a table
  // ---------------------------------------------------------------------

  /** The table has at least `n` rows, each with at least `m` entries, so
      every `rows[i][j]` with `i < n` and `j < m` exists. */
  predicate Covers(rows: seq<seq<int>>, n: nat, m: nat) {
    |rows| >= n && forall i :: 0 <= i < n ==> |rows[i]| >= m
  }

  function Prefixes(rows: seq<seq<int>>, n: nat, m: nat): (ps: seq<seq<int>>)
    requires Covers(rows, n, m)
    ensures |ps| == n
    ensures forall i :: 0 <= i < n ==> ps[i] == rows[i][..m]
  {
    seq(n, i requires 0 <= i < n => rows[i][..m])
  }

  /** `s` holds entry `(i, j)` of the table at position `i * m + j`. */
  predicate RowMajorOf(s: seq<int>, rows: seq<seq<int>>, n: nat, m: nat) {
    |s| == n * m
    && forall i, j :: 0 <= i < n && 0 <= j < m && i < |rows| && j < |rows[i]| ==>
         i * m + j < |s| && s[i * m + j] == rows[i][j]
  }

  /** `[rows[i][j] for i in range(n) for j in range(m)]`: `IndexError` when a
      row or an entry is missing, otherwise the entries in row-major order. */
  function RowMajor(rows: seq<seq<int>>, n: nat, m: nat): (res: Result<seq<int>>)
    ensures res.Ok? <==> Covers(rows, n, m)
    ensures res.Err? ==> res.error == IndexOutOfRange
    ensures res.Ok? ==> RowMajorOf(res.value, rows, n, m)
  {
    if !Covers(rows, n, m) then Err(IndexOutOfRange)
    else
      PrefixesAll(rows, n, m);
      Ok(Concat(Prefixes(rows, n, m)))
  }

  lemma PrefixesAll(rows: seq<seq<int>>, n: nat, m: nat)
    requires Covers(rows, n, m)
    ensures RowMajorOf(Concat(Prefixes(rows, n, m)), rows, n, m)
  {
    var ps := Prefixes(rows, n, m);
    assert forall k :: 0 <= k < |ps| ==> |ps[k]| == m;
    ConcatRectLength(ps, m);
    var s := Concat(ps);
    forall i, j | 0 <= i < n && 0 <= j < m && i < |rows| && j < |rows[i]|
      ensures i * m + j < |s| && s[i * m + j] == rows[i][j]
    {
      ConcatRectAt(ps, m, i, j);
      assert ps[i][j] == rows[i][j];
    }
  }

  /** The nested `for` loops of the builders, appending one entry at a time. */
  method BuildRows(rows: seq<seq<int>>, n: nat, m: nat) returns (res: Result<seq<int>>)
    ensures res == RowMajor(rows, n, m)
  {
    var bits: seq<int> := [];
    var i := 0;
    while i < n
      invariant i <= n
      invariant Covers(rows, i, m)
      invariant bits == Concat(Prefixes(rows, i, m))
    {
      if i >= |rows| {
        return Err(IndexOutOfRange);
      }
      var j := 0;
      while j < m
        invariant j <= m && j <= |rows[i]|
        invariant bits == Concat(Prefixes(rows, i, m)) + rows[i][..j]
      {
        if j >= |rows[i]| {
          return Err(IndexOutOfRange);
        }
        assert rows[i][..j + 1] == rows[i][..j] + [rows[i][j]];
        bits := bits + [rows[i][j]];
        j := j + 1;
      }
      PrefixesSnoc(rows, i, m);
      i := i + 1;
    }
    res := Ok(bits);
  }

  lemma PrefixesSnoc(rows: seq<seq<int>>, i: nat, m: nat)
    requires Covers(rows, i + 1, m)
    ensures Concat(Prefixes(rows, i + 1, m)) == Concat(Prefixes(rows, i, m)) + rows[i][..m]
  {
    assert Prefixes(rows, i + 1, m) == Prefixes(rows, i, m) + [rows[i][..m]];
    ConcatSnoc(Prefixes(rows, i, m), rows[i][..m]);
  }

  lemma {:induction false} ConcatSnoc<T>(rows: seq<seq<T>>, x: seq<T>)
    ensures Concat(rows + [x]) == Concat(rows) + x
  {
    if |rows| > 0 {
      assert (rows + [x])[1..] == rows[1..] + [x];
      ConcatSnoc(rows[1..], x);
    }
  }

  /** On a table of exactly `n` rows of `m` entries, the read-out is the
      rows laid end to end. */
  lemma RowMajorRect(rows: seq<seq<int>>, n: nat, m: nat)
    requires |rows| == n && forall i :: 0 <= i < n ==> |rows[i]| == m
    ensures RowMajor(rows, n, m) == Ok(Concat(rows))
  {
    assert Prefixes(rows, n, m) == rows by {
      forall i | 0 <= i < n ensures Prefixes(rows, n, m)[i] == rows[i] {
        assert rows[i][..m] == rows[i];
      }
    }
  }

  // ---------------------------------------------------------------------
  // The three builders of the top-level generator
  // ---------------------------------------------------------------------

  /** `build_w1`: kernel (level) outermost, then kernel row, then column. */
  function BuildW1(w1: seq<seq<int>>): (res: Result<seq<int>>)
    ensures res.Ok? <==> Covers(w1, 8, 9)
    ensures res.Ok? ==> |res.value| == W1_BITS
    ensures res.Ok? ==> forall level, trit, bitt :: 0 <= level < 8 && 0 <= trit < 3 && 0 <= bitt < 3 ==>
                          res.value[Idx3(level, trit, bitt, 3, 3)] == w1[level][trit * 3 + bitt]
  {
    var res := RowMajor(w1, 8, 9);
    assert forall level, trit, bitt :: 0 <= level < 8 && 0 <= trit < 3 && 0 <= bitt < 3 ==>
             Idx3(level, trit, bitt, 3, 3) == level * 9 + (trit * 3 + bitt);
    res
  }

  /** `build_w2`: filter outermost, then the 72 taps of its row. */
  function BuildW2(w2: seq<seq<int>>): (res: Result<seq<int>>)
    ensures res.Ok? <==> Covers(w2, 4, 72)
    ensures res.Ok? ==> |res.value| == W2_BITS
    ensures res.Ok? ==> forall f, j :: 0 <= f < 4 && 0 <= j < 72 ==> res.value[f * 72 + j] == w2[f][j]
  {
    RowMajor(w2, 4, 72)
  }

  /** `build_w3`: neuron outermost, then its 196 inputs. */
  function BuildW3(w3: seq<seq<int>>): (res: Result<seq<int>>)
    ensures res.Ok? <==> Covers(w3, 10, 196)
    ensures res.Ok? ==> |res.value| == W3_BITS
    ensures res.Ok? ==> forall k, b :: 0 <= k < 10 && 0 <= b < 196 ==> res.value[k * 196 + b] == w3[k][b]
  {
    RowMajor(w3, 10, 196)
  }

  /** `build_w1(w1) + build_w2(w2) + build_w3(w3)` followed by the length
      assertion, which every successful build meets: layer one fills bits
      0-71, layer two 72-359 and the classifier 360-2319. */
  function WeightBits(w1: seq<seq<int>>, w2: seq<seq<int>>, w3: seq<seq<int>>): (res: Result<seq<int>>)
    ensures res.Ok? <==> Covers(w1, 8, 9) && Covers(w2, 4, 72) && Covers(w3, 10, 196)
    ensures res.Err? ==> res.error == IndexOutOfRange
    ensures res.Ok? ==> |res.value| == STREAM_BITS
    ensures res.Ok? ==> res.value[..W1_BITS] == BuildW1(w1).value
                        && res.value[W1_BITS..W1_BITS + W2_BITS] == BuildW2(w2).value
                        && res.value[W1_BITS + W2_BITS..] == BuildW3(w3).value
  {
    var a :- BuildW1(w1);
    var b :- BuildW2(w2);
    var c :- BuildW3(w3);
    var bits := a + b + c;
    // The script's `assert len(weight_bits) == 2320` cannot fail.
    assert |bits| == STREAM_BITS;
    assert bits[..W1_BITS] == a;
    assert bits[W1_BITS..W1_BITS + W2_BITS] == b;
    assert bits[W1_BITS + W2_BITS..] == c;
    Ok(bits)
  }

  /** Where a weight of each table sits in the stream. */
  lemma WeightBitsAt(w1: seq<seq<int>>, w2: seq<seq<int>>, w3: seq<seq<int>>)
    requires WeightBits(w1, w2, w3).Ok?
    ensures var s := WeightBits(w1, w2, w3).value;
            (forall k, i :: 0 <= k < 8 && 0 <= i < 9 ==> s[k * 9 + i] == w1[k][i])
            && (forall f, j :: 0 <= f < 4 && 0 <= j < 72 ==> s[W1_BITS + f * 72 + j] == w2[f][j])
            && (forall n, b :: 0 <= n < 10 && 0 <= b < 196 ==> s[W1_BITS + W2_BITS + n * 196 + b] == w3[n][b])
  {
    var s := WeightBits(w1, w2, w3).value;
    var a := RowMajor(w1, 8, 9).value;
    forall f, j | 0 <= f < 4 && 0 <= j < 72 ensures s[W1_BITS + f * 72 + j] == w2[f][j] {
      assert s[W1_BITS..W1_BITS + W2_BITS][f * 72 + j] == w2[f][j];
    }
    forall n, b | 0 <= n < 10 && 0 <= b < 196 ensures s[W1_BITS + W2_BITS + n * 196 + b] == w3[n][b] {
      assert s[W1_BITS + W2_BITS..][n * 196 + b] == w3[n][b];
    }
    forall k, i | 0 <= k < 8 && 0 <= i < 9 ensures s[k * 9 + i] == w1[k][i] {
      assert s[..W1_BITS][k * 9 + i] == a[k * 9 + i];
    }
  }

  // ---------------------------------------------------------------------
  // The cocotb test's stream
  // ---------------------------------------------------------------------

  /** `build_weight_stream`: the three flat bit lists, each checked for its
      exact length in order, then concatenated. */
  function BuildWeightStream(w1: seq<int>, w2: seq<int>, w3: seq<int>): (res: Result<seq<int>>)
    ensures res.Ok? <==> |w1| == W1_BITS && |w2| == W2_BITS && |w3| == W3_BITS
    ensures |w1| != W1_BITS ==> res == Err(WrongStreamLength(W1_BITS, |w1|))
    ensures |w1| == W1_BITS && |w2| != W2_BITS ==> res == Err(WrongStreamLength(W2_BITS, |w2|))
    ensures |w1| == W1_BITS && |w2| == W2_BITS && |w3| != W3_BITS ==> res == Err(WrongStreamLength(W3_BITS, |w3|))
    ensures res.Ok? ==> |res.value| == STREAM_BITS
    ensures res.Ok? ==> res.value[..W1_BITS] == w1 && res.value[W1_BITS..W1_BITS + W2_BITS] == w2
                        && res.value[W1_BITS + W2_BITS..] == w3
  {
    if |w1| != W1_BITS then Err(WrongStreamLength(W1_BITS, |w1|))
    else if |w2| != W2_BITS then Err(WrongStreamLength(W2_BITS, |w2|))
    else if |w3| != W3_BITS then Err(WrongStreamLength(W3_BITS, |w3|))
    else
      var s := w1 + w2 + w3;
      assert s[..W1_BITS] == w1;
      assert s[W1_BITS..W1_BITS + W2_BITS] == w2;
      assert s[W1_BITS + W2_BITS..] == w3;
      Ok(s)
  }

  /** A table of exactly `n` rows of `m` bits. */
  predicate IsTable(rows: seq<seq<Bit>>, n: nat, m: nat) {
    |rows| == n && forall i :: 0 <= i < n ==> |rows[i]| == m
  }

  /** Both testbenches drive the same 2320 bits when the weight files were
      written one row per line with 9, 72 and 196 bits per row: the cocotb
      test's flat reader and length checks agree with the generator's
      row-by-row builders. */
  lemma StreamsAgree(r1: seq<seq<Bit>>, r2: seq<seq<Bit>>, r3: seq<seq<Bit>>)
    requires IsTable(r1, 8, 9) && IsTable(r2, 4, 72) && IsTable(r3, 10, 196)
    ensures LoadCsv(Written(r1)).Ok? && LoadCsv(Written(r2)).Ok? && LoadCsv(Written(r3)).Ok?
    ensures LoadCsvBits(Written(r1)).Ok? && LoadCsvBits(Written(r2)).Ok? && LoadCsvBits(Written(r3)).Ok?
    ensures WeightBits(LoadCsv(Written(r1)).value, LoadCsv(Written(r2)).value, LoadCsv(Written(r3)).value)
            == BuildWeightStream(LoadCsvBits(Written(r1)).value, LoadCsvBits(Written(r2)).value,
                                 LoadCsvBits(Written(r3)).value)
    ensures BuildWeightStream(LoadCsvBits(Written(r1)).value, LoadCsvBits(Written(r2)).value,
                              LoadCsvBits(Written(r3)).value).Ok?
  {
    TableReads(r1, 8, 9);
    TableReads(r2, 4, 72);
    TableReads(r3, 10, 196);
  }

  /** One weight file read both ways. */
  lemma TableReads(rows: seq<seq<Bit>>, n: nat, m: nat)
    requires IsTable(rows, n, m) && m > 0
    ensures LoadCsv(Written(rows)) == Ok(rows)
    ensures LoadCsvBits(Written(rows)) == Ok(Concat<int>(rows))
    ensures RowMajor(rows, n, m) == Ok(Concat<int>(rows))
    ensures |Concat<int>(rows)| == n * m
  {
    CsvRoundTrip(rows);
    CsvBitsRoundTrip(rows);
    RowMajorRect(rows, n, m);
    ConcatRectLength<int>(rows, m);
  }
}
