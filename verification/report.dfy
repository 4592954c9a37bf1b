/** The mismatch tally of the layer-one comparison report: per image, the
    hardware output literal is decoded and compared kernel by kernel with the
    reference output; the summary counts checks and wrong bits and passes
    only when nothing differs.  The simulator run that produces the literal
    is a parameter (`None` when it printed nothing). */
module ComparisonReport {
  import opened Errors
  import opened Bits
  import opened Sequences
  import opened BinaryConv
  import opened LayerOne
  import opened VerilogPack

  // ---------------------------------------------------------------------
  // Counting differences
  // ---------------------------------------------------------------------

  /** The number of positions at which two rows differ. */
  function RowDiff(a: seq<Bit>, b: seq<Bit>): (n: nat)
    requires |a| == |b|
    ensures n <= |a|
    ensures n == 0 <==> a == b
  {
    if |a| == 0 then 0
    else
      var rest := RowDiff(a[1..], b[1..]);
      assert a == [a[0]] + a[1..] && b == [b[0]] + b[1..];
      (if a[0] != b[0] then 1 else 0) + rest
  }

  predicate SameShape(e: seq<seq<Bit>>, h: seq<seq<Bit>>, m: nat) {
    |e| == |h| && forall r :: 0 <= r < |e| ==> |e[r]| == m && |h[r]| == m
  }

  /** `np.sum(expected[k] != hw[k])`: the number of differing cells of two
      planes of rows of width `m`. */
  function PlaneDiff(e: seq<seq<Bit>>, h: seq<seq<Bit>>, m: nat): (n: nat)
    requires SameShape(e, h, m)
    ensures n <= |e| * m
    ensures n == 0 <==> e == h
  {
    if |e| == 0 then 0
    else
      var rest := PlaneDiff(e[1..], h[1..], m);
      MulSucc(|e| - 1, m);
      assert e == [e[0]] + e[1..] && h == [h[0]] + h[1..];
      RowDiff(e[0], h[0]) + rest
  }

  /** One image's result: skipped when the simulation returned nothing,
      otherwise the mismatch count of each kernel. */
  datatype ImageReport = Skipped | Checked(counts: seq<nat>)

  predicate Passed(rep: ImageReport) {
    rep.Checked? && forall k :: 0 <= k < |rep.counts| ==> rep.counts[k] == 0
  }

  /** The per-kernel counts of one simulated image. */
  function KernelCounts(e: Planes, h: Planes): (counts: seq<nat>)
    requires IsPlanes(e, 8, 14) && IsPlanes(h, 8, 14)
    ensures |counts| == 8
    ensures forall k :: 0 <= k < 8 ==> counts[k] <= 196
    ensures forall k :: 0 <= k < 8 ==> (counts[k] == 0 <==> e[k] == h[k])
  {
    seq(8, k requires 0 <= k < 8 => PlaneDiff(e[k], h[k], 14))
  }

  /** One pass of the main loop: a simulation that printed nothing is
      skipped; a literal that does not decode stops the script; otherwise
      the image passes iff the decoded output is the reference output. */
  function CompareImage(e: Planes, hw: Option<string>): (res: Result<ImageReport>)
    requires IsPlanes(e, 8, 14)
    ensures hw.None? ==> res == Ok(Skipped)
    ensures hw.Some? ==> (res.Ok? <==> VerilogToOutput(hw.value).Ok?)
    ensures hw.Some? && res.Ok? ==>
              res.value.Checked? && |res.value.counts| == 8
              && (forall k :: 0 <= k < 8 ==> res.value.counts[k] <= 196)
              && (Passed(res.value) <==> VerilogToOutput(hw.value).value == e)
  {
    match hw
    case None => Ok(Skipped)
    case Some(s) =>
      var h :- VerilogToOutput(s);
      var counts := KernelCounts(e, h);
      assert Passed(Checked(counts)) ==> e == h by {
        if Passed(Checked(counts)) {
          assert forall k :: 0 <= k < 8 ==> e[k] == h[k];
        }
      }
      Ok(Checked(counts))
  }

  // ---------------------------------------------------------------------
  // The report over all images
  // ---------------------------------------------------------------------

  predicate AllPlanes(expected: seq<Planes>) {
    forall i :: 0 <= i < |expected| ==> IsPlanes(expected[i], 8, 14)
  }

  /** The images compared in order; the first literal that fails to decode
      stops the run. */
  function CompareAll(expected: seq<Planes>, hw: seq<Option<string>>): (res: Result<seq<ImageReport>>)
    requires |hw| == |expected| && AllPlanes(expected)
    ensures res.Ok? <==> forall i :: 0 <= i < |hw| ==> CompareImage(expected[i], hw[i]).Ok?
    ensures res.Ok? ==> |res.value| == |hw|
                        && forall i :: 0 <= i < |hw| ==> CompareImage(expected[i], hw[i]) == Ok(res.value[i])
  {
    var rs := seq(|hw|, i requires 0 <= i < |hw| => CompareImage(expected[i], hw[i]));
    assert forall i :: 0 <= i < |hw| ==> rs[i] == CompareImage(expected[i], hw[i]);
    Collect(rs)
  }

  /** The number of simulated images. */
  function NumSimulated(hw: seq<Option<string>>): (n: nat)
    ensures n <= |hw|
  {
    if |hw| == 0 then 0 else (if hw[0].Some? then 1 else 0) + NumSimulated(hw[1..])
  }

  function NumChecked(reps: seq<ImageReport>): (n: nat)
    ensures n <= |reps|
  {
    if |reps| == 0 then 0 else (if reps[0].Checked? then 1 else 0) + NumChecked(reps[1..])
  }

  predicate WellFormed(reps: seq<ImageReport>) {
    forall i :: 0 <= i < |reps| ==> reps[i].Checked? ==> |reps[i].counts| == 8
  }

  /** The summary loop: every kernel of a checked image adds 196 checks and
      its mismatch count; skipped images add nothing.  The run passes iff no
      error was counted. */
  method Tally(reps: seq<ImageReport>) returns (checks: nat, errors: nat)
    requires WellFormed(reps)
    ensures checks == 1568 * NumChecked(reps)
    ensures errors == 0 <==> forall i :: 0 <= i < |reps| ==> reps[i].Checked? ==> Passed(reps[i])
  {
    checks, errors := 0, 0;
    var i := 0;
    while i < |reps|
      invariant i <= |reps|
      invariant checks == 1568 * NumChecked(reps[..i])
      invariant errors == 0 <==> forall j :: 0 <= j < i ==> reps[j].Checked? ==> Passed(reps[j])
    {
      NumCheckedSnoc(reps[..i], reps[i]);
      assert reps[..i + 1] == reps[..i] + [reps[i]];
      if reps[i].Checked? {
        var counts := reps[i].counts;
        var imageErrors := 0;
        var k := 0;
        while k < 8
          invariant k <= 8
          invariant imageErrors == 0 <==> forall q :: 0 <= q < k ==> counts[q] == 0
        {
          imageErrors := imageErrors + counts[k];
          k := k + 1;
        }
        errors := errors + imageErrors;
        checks := checks + 8 * 196;
      }
      i := i + 1;
    }
    assert reps[..i] == reps;
  }

  lemma {:induction false} NumCheckedSnoc(reps: seq<ImageReport>, r: ImageReport)
    ensures NumChecked(reps + [r]) == NumChecked(reps) + (if r.Checked? then 1 else 0)
  {
    if |reps| > 0 {
      assert (reps + [r])[1..] == reps[1..] + [r];
      NumCheckedSnoc(reps[1..], r);
    }
  }

  /** A successful comparison checks exactly the simulated images. */
  lemma CheckedAreSimulated(expected: seq<Planes>, hw: seq<Option<string>>)
    requires |hw| == |expected| && AllPlanes(expected)
    requires CompareAll(expected, hw).Ok?
    ensures NumChecked(CompareAll(expected, hw).value) == NumSimulated(hw)
    ensures WellFormed(CompareAll(expected, hw).value)
  {
    var reps := CompareAll(expected, hw).value;
    forall i | 0 <= i < |hw|
      ensures (reps[i].Checked? <==> hw[i].Some?) && (reps[i].Checked? ==> |reps[i].counts| == 8)
    {
      assert CompareImage(expected[i], hw[i]) == Ok(reps[i]);
    }
    CheckedCount(reps, hw);
  }

  lemma {:induction false} CheckedCount(reps: seq<ImageReport>, hw: seq<Option<string>>)
    requires |reps| == |hw| && forall i :: 0 <= i < |hw| ==> (reps[i].Checked? <==> hw[i].Some?)
    ensures NumChecked(reps) == NumSimulated(hw)
  {
    if |hw| > 0 {
      CheckedCount(reps[1..], hw[1..]);
    }
  }

  datatype Summary = Summary(checks: nat, errors: nat)

  /** Every simulated image decodes to exactly the reference output. */
  predicate HardwareMatches(expected: seq<Planes>, hw: seq<Option<string>>) {
    |hw| == |expected|
    && forall i :: 0 <= i < |hw| && hw[i].Some? ==>
         VerilogToOutput(hw[i].value).Ok? && VerilogToOutput(hw[i].value).value == expected[i]
  }

  /** The report: `total_checks` is 1568 per simulated image, and the result
      is ALL PASS (no error) iff the hardware matches the reference on every
      simulated image. */
  method Report(expected: seq<Planes>, hw: seq<Option<string>>) returns (res: Result<Summary>)
    requires |hw| == |expected| && AllPlanes(expected)
    ensures res.Ok? <==> forall i :: 0 <= i < |hw| && hw[i].Some? ==> VerilogToOutput(hw[i].value).Ok?
    ensures res.Ok? ==> res.value.checks == 1568 * NumSimulated(hw)
    ensures res.Ok? ==> (res.value.errors == 0 <==> HardwareMatches(expected, hw))
  {
    var all := CompareAll(expected, hw);
    if all.Err? {
      var i :| 0 <= i < |hw| && CompareImage(expected[i], hw[i]).Err?;
      return Err(all.error);
    }
    var reps := all.value;
    CheckedAreSimulated(expected, hw);
    var checks, errors := Tally(reps);
    assert (forall i :: 0 <= i < |reps| ==> reps[i].Checked? ==> Passed(reps[i]))
           <==> HardwareMatches(expected, hw) by {
      forall i | 0 <= i < |reps|
        ensures (reps[i].Checked? ==> Passed(reps[i]))
                <==> (hw[i].Some? ==> VerilogToOutput(hw[i].value).Ok? && VerilogToOutput(hw[i].value).value == expected[i])
      {
        assert CompareImage(expected[i], hw[i]) == Ok(reps[i]);
      }
    }
    return Ok(Summary(checks, errors));
  }

  /** Iteration `i` of the report loop: `images[i]` and `labels[i]` (an
      `IndexError` past the end of either), then the comparison of the
      simulated literal with the reference output of `run_layer_one`. */
  function ImageStep(images: seq<Image>, labels: seq<Byte>, ws: seq<Kernel>, ts: seq<int>,
                     hw: seq<Option<string>>, i: nat): Result<ImageReport>
    requires IsWeights(ws) && |ts| >= 8 && i < |hw|
    requires forall j :: 0 <= j < |images| ==> IsImage(images[j])
  {
    if i >= |images| || i >= |labels| then Err(IndexOutOfRange)
    else CompareImage(RunLayerOne(images[i], ws, ts), hw[i])
  }

  /** The iterations of the report loop, in order. */
  function ImageSteps(images: seq<Image>, labels: seq<Byte>, ws: seq<Kernel>, ts: seq<int>,
                      hw: seq<Option<string>>): seq<Result<ImageReport>>
    requires IsWeights(ws) && |ts| >= 8
    requires forall j :: 0 <= j < |images| ==> IsImage(images[j])
  {
    seq(|hw|, i requires 0 <= i < |hw| => ImageStep(images, labels, ws, ts, hw, i))
  }

  /** The report as run on loaded images and labels.  `hw` holds one
      simulation result per iteration, so `|hw|` is the image count the
      script is given (`NUM_IMAGES`), which may exceed the images or labels
      loaded.  The script prints `thresholds[k]` for all eight kernels
      before the first image, so a shorter threshold list stops it with an
      `IndexError`; after that it stops at the first iteration that fails. */
  method ReportImages(images: seq<Image>, labels: seq<Byte>, ws: seq<Kernel>, ts: seq<int>, hw: seq<Option<string>>)
    returns (res: Result<Summary>)
    requires IsWeights(ws)
    requires forall i :: 0 <= i < |images| ==> IsImage(images[i])
    ensures res.Ok? <==>
              |ts| >= 8 && |hw| <= |images| && |hw| <= |labels|
              && forall i :: 0 <= i < |hw| && hw[i].Some? ==> VerilogToOutput(hw[i].value).Ok?
    ensures |ts| < 8 ==> res == Err(IndexOutOfRange)
    ensures res.Err? && |ts| >= 8 ==> FirstError(ImageSteps(images, labels, ws, ts, hw), res.error)
    ensures res.Ok? ==> res.value.checks == 1568 * NumSimulated(hw)
    ensures res.Ok? ==>
              (res.value.errors == 0 <==>
                 forall i :: 0 <= i < |hw| && hw[i].Some? ==>
                   VerilogToOutput(hw[i].value).Ok? && VerilogToOutput(hw[i].value).value == RunLayerOne(images[i], ws, ts))
  {
    if |ts| < 8 {
      return Err(IndexOutOfRange);
    }
    var steps := ImageSteps(images, labels, ws, ts, hw);
    var all := Collect(steps);
    if all.Err? {
      CollectError(steps);
      return Err(all.error);
    }
    if |hw| > 0 {
      assert steps[|hw| - 1].Ok?;
    }
    var expected := seq(|hw|, i requires 0 <= i < |hw| => RunLayerOne(images[i], ws, ts));
    forall i | 0 <= i < |hw|
      ensures CompareImage(expected[i], hw[i]).Ok?
    {
      assert steps[i].Ok?;
    }
    res := Report(expected, hw);
  }
}
