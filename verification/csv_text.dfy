/** The comma-separated weight files: one row of `0`/`1` fields per neuron
    or filter, written with `",".join(map(str, bits))` and read back field by
    field with Python's `int`. */
module CsvText {
  import opened Errors
  import opened Bits
  import opened Sequences
  import opened WeightFiles

  // ---------------------------------------------------------------------
  // Splitting and joining on a separator
  // ---------------------------------------------------------------------

  predicate NoSep(s: string, sep: char) {
    forall i :: 0 <= i < |s| ==> s[i] != sep
  }

  /** `sep.join(fields)`. */
  function Join(fields: seq<string>, sep: char): string {
    if |fields| == 0 then []
    else if |fields| == 1 then fields[0]
    else fields[0] + [sep] + Join(fields[1..], sep)
  }

  /** `s.split(sep)`: the pieces between separators, at least one, none
      holding the separator. */
  function Split(s: string, sep: char): (fields: seq<string>)
    ensures |fields| >= 1
    ensures forall k :: 0 <= k < |fields| ==> NoSep(fields[k], sep)
  {
    if |s| == 0 then [[]]
    else
      var rest := Split(s[1..], sep);
      if s[0] == sep then [[]] + rest
      else
        var fields := [[s[0]] + rest[0]] + rest[1..];
        assert forall k :: 1 <= k < |fields| ==> fields[k] == rest[k];
        assert forall i :: 1 <= i < |fields[0]| ==> fields[0][i] == rest[0][i - 1];
        fields
  }

  /** Joining the pieces of a split gives the string back. */
  lemma {:induction false} JoinSplit(s: string, sep: char)
    ensures Join(Split(s, sep), sep) == s
  {
    if |s| > 0 {
      var rest := Split(s[1..], sep);
      JoinSplit(s[1..], sep);
      if s[0] == sep {
        assert [sep] + Join(rest, sep) == s;
      } else {
        var fields := Split(s, sep);
        assert fields[1..] == rest[1..];
        if |rest| > 1 {
          assert Join(fields, sep) == fields[0] + [sep] + Join(rest[1..], sep);
          assert Join(rest, sep) == rest[0] + [sep] + Join(rest[1..], sep);
        }
        assert Join(fields, sep) == [s[0]] + Join(rest, sep);
      }
    }
  }

  /** Splitting a join of separator-free fields gives the fields back. */
  lemma {:induction false} SplitJoin(fields: seq<string>, sep: char)
    requires |fields| >= 1
    requires forall k :: 0 <= k < |fields| ==> NoSep(fields[k], sep)
    ensures Split(Join(fields, sep), sep) == fields
  {
    if |fields| == 1 {
      FieldSplit(fields[0], [], sep);
      assert fields[0] + [] == fields[0];
    } else {
      var tail := Join(fields[1..], sep);
      SplitJoin(fields[1..], sep);
      SplitAtSep(tail, sep);
      var after := [sep] + tail;
      assert Split(after, sep) == [[]] + fields[1..];
      FieldSplit(fields[0], after, sep);
      assert Join(fields, sep) == fields[0] + after;
      assert fields[0] + [] == fields[0];
      assert [fields[0]] + fields[1..] == fields;
    }
  }

  /** A leading separator closes an empty first piece. */
  lemma SplitAtSep(t: string, sep: char)
    ensures Split([sep] + t, sep) == [[]] + Split(t, sep)
  {
    assert ([sep] + t)[1..] == t;
  }

  /** A separator-free prefix glues onto the first piece of what follows it. */
  lemma {:induction false} FieldSplit(f: string, rest: string, sep: char)
    requires NoSep(f, sep)
    requires |rest| == 0 || rest[0] == sep
    ensures Split(f + rest, sep) == [f + Split(rest, sep)[0]] + Split(rest, sep)[1..]
  {
    if |f| > 0 {
      assert (f + rest)[1..] == f[1..] + rest;
      FieldSplit(f[1..], rest, sep);
      assert [f[0]] + (f[1..] + Split(rest, sep)[0]) == f + Split(rest, sep)[0];
    } else {
      assert f + rest == rest;
    }
  }

  // ---------------------------------------------------------------------
  // Decimal fields (`int(x)`)
  // ---------------------------------------------------------------------

  predicate IsDigit(c: char) {
    '0' <= c <= '9'
  }

  predicate AllDigits(s: string) {
    forall i :: 0 <= i < |s| ==> IsDigit(s[i])
  }

  function DigitValue(c: char): (v: nat)
    requires IsDigit(c)
    ensures v < 10
  {
    (c as int) - ('0' as int)
  }

  /** The value of a string of decimal digits, most significant first. */
  function DecValue(d: string): nat
    requires AllDigits(d)
  {
    if |d| == 0 then 0 else 10 * DecValue(d[..|d| - 1]) + DigitValue(d[|d| - 1])
  }

  /** `int(x)` on a field: surrounding spaces are ignored, then an optional
      sign and at least one decimal digit; anything else raises `ValueError`. */
  function ParseInt(x: string): (res: Result<int>)
    ensures res.Ok? <==> |DigitsOf(Strip(x))| > 0 && AllDigits(DigitsOf(Strip(x)))
    ensures res.Err? ==> res.error == BadDigit
    ensures res.Ok? && !(|Strip(x)| > 0 && Strip(x)[0] == '-') ==> res.value >= 0
    ensures res.Ok? ==>
              res.value == if Strip(x)[0] == '-' then -(DecValue(DigitsOf(Strip(x))) as int) else DecValue(DigitsOf(Strip(x)))
  {
    var t := Strip(x);
    var d := DigitsOf(t);
    if |d| == 0 || !AllDigits(d) then Err(BadDigit)
    else
      var v: int := DecValue(d);
      Ok(if |t| > 0 && t[0] == '-' then -v else v)
  }

  /** `str(b)` of a bit is read back by `int` as the bit. */
  lemma ParseBit(b: Bit)
    ensures ParseInt([BitChar(b)]) == Ok(b)
  {
    var s := [BitChar(b)];
    StripBits(s);
    assert !Signed(s);
    assert DigitsOf(s) == s;
    assert AllDigits(s);
    assert s[..0] == [];
    assert DecValue(s) == DigitValue(s[0]);
  }

  /** `[int(x) for x in fields]`, stopping at the first field `int` rejects. */
  function ParseFields(fields: seq<string>): (res: Result<seq<int>>)
    ensures res.Ok? <==> forall k :: 0 <= k < |fields| ==> ParseInt(fields[k]).Ok?
    ensures res.Ok? ==> |res.value| == |fields|
                        && forall k :: 0 <= k < |fields| ==> ParseInt(fields[k]) == Ok(res.value[k])
  {
    var rs := seq(|fields|, k requires 0 <= k < |fields| => ParseInt(fields[k]));
    assert forall k :: 0 <= k < |fields| ==> rs[k] == ParseInt(fields[k]);
    Collect(rs)
  }

  // ---------------------------------------------------------------------
  // Rows and files
  // ---------------------------------------------------------------------

  /** `map(str, bits)`. */
  function BitFields(bits: seq<Bit>): (fs: seq<string>)
    ensures |fs| == |bits|
    ensures forall i :: 0 <= i < |bits| ==> fs[i] == [BitChar(bits[i])]
  {
    seq(|bits|, i requires 0 <= i < |bits| => [BitChar(bits[i])])
  }

  /** `",".join(map(str, bits))`: one row as the weight extractor writes it. */
  function CsvRow(bits: seq<Bit>): string {
    Join(BitFields(bits), ',')
  }

  /** One row of `csv.reader` followed by `[int(x) for x in line]`: an empty
      line is an empty row, any other line is split at its commas. */
  function ReadRow(line: string): (res: Result<seq<int>>)
    ensures line == [] ==> res == Ok([])
    ensures line != [] ==> res == ParseFields(Split(line, ','))
  {
    if line == [] then Ok([]) else ParseFields(Split(line, ','))
  }

  /** A written row is read back as the bits it was written from. */
  lemma RowRoundTrip(bits: seq<Bit>)
    ensures ReadRow(CsvRow(bits)) == Ok(bits)
  {
    var fs := BitFields(bits);
    if |bits| > 0 {
      forall k | 0 <= k < |fs| ensures NoSep(fs[k], ',') {
        assert fs[k] == [BitChar(bits[k])];
      }
      SplitJoin(fs, ',');
      forall k | 0 <= k < |fs| ensures ParseInt(fs[k]) == Ok(bits[k] as int) {
        ParseBit(bits[k]);
      }
      var res := ParseFields(fs);
      assert res.Ok?;
      assert res.value == bits;
      RowNotEmpty(fs);
    }
  }

  /** Joining at least one field of one character gives a non-empty line. */
  lemma RowNotEmpty(fs: seq<string>)
    requires |fs| > 0 && |fs[0]| > 0
    ensures Join(fs, ',') != []
  {
    if |fs| > 1 {
      assert Join(fs, ',')[0] == fs[0][0];
    }
  }

  /** `load_csv`: every line of the file is one row of integers. */
  function LoadCsv(lines: seq<string>): (res: Result<seq<seq<int>>>)
    ensures res.Ok? <==> forall k :: 0 <= k < |lines| ==> ReadRow(lines[k]).Ok?
    ensures res.Ok? ==> |res.value| == |lines|
                        && forall k :: 0 <= k < |lines| ==> ReadRow(lines[k]) == Ok(res.value[k])
  {
    var rs := seq(|lines|, k requires 0 <= k < |lines| => ReadRow(lines[k]));
    assert forall k :: 0 <= k < |lines| ==> rs[k] == ReadRow(lines[k]);
    Collect(rs)
  }

  /** The lines of a file written one row per line. */
  function Written(rows: seq<seq<Bit>>): (lines: seq<string>)
    ensures |lines| == |rows|
    ensures forall k :: 0 <= k < |rows| ==> lines[k] == CsvRow(rows[k])
  {
    seq(|rows|, k requires 0 <= k < |rows| => CsvRow(rows[k]))
  }

  /** A file written one row per line reads back as its rows. */
  lemma CsvRoundTrip(rows: seq<seq<Bit>>)
    ensures LoadCsv(Written(rows)) == Ok(rows)
  {
    var lines := Written(rows);
    forall k | 0 <= k < |rows| ensures ReadRow(lines[k]) == Ok(rows[k]) {
      RowRoundTrip(rows[k]);
    }
    var res := LoadCsv(lines);
    assert res.Ok?;
    forall k | 0 <= k < |rows| ensures res.value[k] == rows[k] {}
    assert res.value == rows;
  }

  /** The bits of the stripped, non-blank lines, each split at its commas. */
  function CsvBits(ls: seq<string>): (res: Result<seq<int>>)
    ensures res.Ok? <==> forall k :: 0 <= k < |ls| ==> ParseFields(Split(ls[k], ',')).Ok?
  {
    var rs := seq(|ls|, k requires 0 <= k < |ls| => ParseFields(Split(ls[k], ',')));
    assert forall k :: 0 <= k < |ls| ==> rs[k] == ParseFields(Split(ls[k], ','));
    var rows :- Collect(rs);
    Ok(Concat(rows))
  }

  /** `load_csv_bits`: strip every line, skip blank ones, and extend one flat
      list with the integers of each. */
  function LoadCsvBits(lines: seq<string>): Result<seq<int>> {
    CsvBits(Cleaned(lines))
  }

  /** On a file whose lines are non-blank and carry no surrounding spaces,
      the flat reader returns the rows of the row reader laid end to end. */
  lemma {:induction false} FlatReaderAgrees(lines: seq<string>)
    requires forall k :: 0 <= k < |lines| ==> |lines[k]| > 0 && Stripped(lines[k])
    requires LoadCsv(lines).Ok?
    ensures LoadCsvBits(lines) == Ok(Concat(LoadCsv(lines).value))
  {
    CleanedKeeps(lines);
    CsvBitsConcat(lines);
  }

  lemma CsvBitsConcat(ls: seq<string>)
    requires forall k :: 0 <= k < |ls| ==> |ls[k]| > 0
    requires LoadCsv(ls).Ok?
    ensures CsvBits(ls) == Ok(Concat(LoadCsv(ls).value))
  {
    var rows := LoadCsv(ls).value;
    var rs := seq(|ls|, k requires 0 <= k < |ls| => ParseFields(Split(ls[k], ',')));
    forall k | 0 <= k < |ls| ensures rs[k] == Ok(rows[k]) {
      assert ReadRow(ls[k]) == Ok(rows[k]);
    }
    assert Collect(rs).value == rows;
  }

  /** A weight file written by the extractor, every row non-empty, is read by
      the flat reader as all its bits in row order. */
  lemma CsvBitsRoundTrip(rows: seq<seq<Bit>>)
    requires forall k :: 0 <= k < |rows| ==> |rows[k]| > 0
    ensures LoadCsvBits(Written(rows)) == Ok(Concat<int>(rows))
  {
    var lines := Written(rows);
    CsvRoundTrip(rows);
    forall k | 0 <= k < |rows| ensures |lines[k]| > 0 && Stripped(lines[k]) {
      RowEnds(rows[k]);
    }
    FlatReaderAgrees(lines);
  }

  /** A written row starts and ends with a bit character. */
  lemma RowEnds(bits: seq<Bit>)
    requires |bits| > 0
    ensures |CsvRow(bits)| > 0 && Stripped(CsvRow(bits))
  {
    var fs := BitFields(bits);
    RowNotEmpty(fs);
    JoinEnds(fs);
  }

  lemma {:induction false} JoinEnds(fs: seq<string>)
    requires |fs| > 0 && forall k :: 0 <= k < |fs| ==> |fs[k]| == 1 && IsBitChar(fs[k][0])
    ensures |Join(fs, ',')| > 0
    ensures IsBitChar(Join(fs, ',')[0]) && IsBitChar(Join(fs, ',')[|Join(fs, ',')| - 1])
  {
    if |fs| > 1 {
      JoinEnds(fs[1..]);
      var j := Join(fs, ',');
      assert j == fs[0] + [','] + Join(fs[1..], ',');
      assert j[0] == fs[0][0];
    }
  }
}
