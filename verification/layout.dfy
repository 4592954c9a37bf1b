/** Index arithmetic shared by every bit-layout codec: row-major positions in a
    three-dimensional box, their inverse, concatenation, reversal (Python's
    `s[::-1]`) and the "write into a default-filled list" idiom. */
module Layout {

  // ---------------------------------------------------------------------
  // Row-major positions in a d0 x d1 x d2 box
  // ---------------------------------------------------------------------

  /** Row-major position of `(a, b, c)` in a box whose inner sizes are d1, d2. */
  function Idx3(a: nat, b: nat, c: nat, d1: nat, d2: nat): nat {
    (a * d1 + b) * d2 + c
  }

  /** Outer coordinate of position `p`. */
  function Hi(p: nat, d1: nat, d2: nat): nat
    requires d1 > 0 && d2 > 0
  {
    (p / d2) / d1
  }

  /** Middle coordinate of position `p`. */
  function Mid(p: nat, d1: nat, d2: nat): nat
    requires d1 > 0 && d2 > 0
  {
    (p / d2) % d1
  }

  /** Inner coordinate of position `p`. */
  function Lo(p: nat, d2: nat): nat
    requires d2 > 0
  {
    p % d2
  }

  lemma DivModOf(q: nat, m: nat, r: nat)
    requires r < m
    ensures (q * m + r) / m == q
    ensures (q * m + r) % m == r
  {
    var x := q * m + r;
    var d := q - x / m;
    assert d * m == x % m - r;
    if d > 0 {
      MulAtLeast(d, m);
    } else if d < 0 {
      MulAtLeast(-d, m);
    }
  }

  lemma MulAtLeast(d: int, m: nat)
    requires d >= 1
    ensures d * m >= m
  {
  }

  lemma MulStrictMono(x: nat, y: nat, m: nat)
    requires x < y && m > 0
    ensures x * m + m <= y * m
  {
    MulAtLeast(y - x, m);
  }

  /** Position -> coordinates -> position is the identity. */
  lemma Idx3Coords(p: nat, d0: nat, d1: nat, d2: nat)
    requires d1 > 0 && d2 > 0 && p < d0 * d1 * d2
    ensures Hi(p, d1, d2) < d0 && Mid(p, d1, d2) < d1 && Lo(p, d2) < d2
    ensures Idx3(Hi(p, d1, d2), Mid(p, d1, d2), Lo(p, d2), d1, d2) == p
  {
    var q, r := p / d2, p % d2;
    assert p == q * d2 + r;
    var h, m := q / d1, q % d1;
    assert q == h * d1 + m;
    assert q * d2 < (d0 * d1) * d2;
    LtOfMulLt(q, d0 * d1, d2);
    assert h * d1 < d0 * d1;
    LtOfMulLt(h, d0, d1);
    assert (h * d1 + m) * d2 + r == p;
  }

  lemma LtOfMulLt(x: nat, y: nat, m: nat)
    requires m > 0 && x * m < y * m
    ensures x < y
  {
    if x >= y {
      MulMono(y, x, m);
      assert false;
    }
  }

  lemma MulMono(x: nat, y: nat, m: nat)
    requires x <= y
    ensures x * m <= y * m
  {
  }

  /** Coordinates -> position -> coordinates is the identity, and the
      position lies inside the box. */
  lemma CoordsIdx3(a: nat, b: nat, c: nat, d0: nat, d1: nat, d2: nat)
    requires a < d0 && b < d1 && c < d2
    ensures Idx3(a, b, c, d1, d2) < d0 * d1 * d2
    ensures Hi(Idx3(a, b, c, d1, d2), d1, d2) == a
    ensures Mid(Idx3(a, b, c, d1, d2), d1, d2) == b
    ensures Lo(Idx3(a, b, c, d1, d2), d2) == c
  {
    var q := a * d1 + b;
    DivModOf(q, d2, c);
    DivModOf(a, d1, b);
    MulStrictMono(a, d0, d1);
    MulStrictMono(q, d0 * d1, d2);
  }

  /** The row-major map is injective on the box. */
  lemma Idx3Injective(a: nat, b: nat, c: nat, a': nat, b': nat, c': nat, d0: nat, d1: nat, d2: nat)
    requires a < d0 && b < d1 && c < d2 && a' < d0 && b' < d1 && c' < d2
    requires Idx3(a, b, c, d1, d2) == Idx3(a', b', c', d1, d2)
    ensures a == a' && b == b' && c == c'
  {
    CoordsIdx3(a, b, c, d0, d1, d2);
    CoordsIdx3(a', b', c', d0, d1, d2);
  }
}

module Sequences {
  import opened Layout

  // ---------------------------------------------------------------------
  // Concatenation (Python's "".join / list.extend in loop order)
  // ---------------------------------------------------------------------

  function Concat<T>(rows: seq<seq<T>>): seq<T>
  {
    if |rows| == 0 then [] else rows[0] + Concat(rows[1..])
  }

  /** Number of elements before row `i` in the concatenation. */
  function Offset<T>(rows: seq<seq<T>>, i: nat): nat
    requires i <= |rows|
  {
    if i == 0 then 0 else Offset(rows, i - 1) + |rows[i - 1]|
  }

  lemma {:induction false} ConcatLength<T>(rows: seq<seq<T>>)
    ensures |Concat(rows)| == Offset(rows, |rows|)
  {
    if |rows| > 0 {
      ConcatLength(rows[1..]);
      OffsetShiftAt(rows, |rows|);
    }
  }

  /** Element `j` of row `i` sits at `Offset(rows, i) + j`. */
  lemma {:induction false} ConcatAt<T>(rows: seq<seq<T>>, i: nat, j: nat)
    requires i < |rows| && j < |rows[i]|
    ensures Offset(rows, i) + j < |Concat(rows)|
    ensures Concat(rows)[Offset(rows, i) + j] == rows[i][j]
  {
    if i > 0 {
      var tail := rows[1..];
      assert tail[i - 1] == rows[i];
      ConcatAt(tail, i - 1, j);
      OffsetShiftAt(rows, i);
    }
  }

  lemma {:induction false} OffsetShiftAt<T>(rows: seq<seq<T>>, i: nat)
    requires 1 <= i <= |rows|
    ensures Offset(rows, i) == |rows[0]| + Offset(rows[1..], i - 1)
  {
    if i > 1 {
      OffsetShiftAt(rows, i - 1);
      assert rows[1..][i - 2] == rows[i - 1];
    }
  }

  lemma {:induction false} OffsetRect<T>(rows: seq<seq<T>>, m: nat, i: nat)
    requires forall k :: 0 <= k < |rows| ==> |rows[k]| == m
    requires i <= |rows|
    ensures Offset(rows, i) == i * m
  {
    if i > 0 {
      OffsetRect(rows, m, i - 1);
      MulSucc(i - 1, m);
    }
  }

  lemma MulSucc(i: nat, m: nat)
    ensures i * m + m == (i + 1) * m
  {
  }

  /** Concatenation of rows that all have length `m`: row-major addressing. */
  lemma ConcatRectLength<T>(rows: seq<seq<T>>, m: nat)
    requires forall i :: 0 <= i < |rows| ==> |rows[i]| == m
    ensures |Concat(rows)| == |rows| * m
  {
    ConcatLength(rows);
    OffsetRect(rows, m, |rows|);
  }

  lemma ConcatRectAt<T>(rows: seq<seq<T>>, m: nat, i: nat, j: nat)
    requires forall k :: 0 <= k < |rows| ==> |rows[k]| == m
    requires i < |rows| && j < m
    ensures i * m + j < |Concat(rows)|
    ensures Concat(rows)[i * m + j] == rows[i][j]
  {
    ConcatAt(rows, i, j);
    OffsetRect(rows, m, i);
  }

  // ---------------------------------------------------------------------
  // Three-dimensional boxes
  // ---------------------------------------------------------------------

  predicate IsBox3<T>(x: seq<seq<seq<T>>>, d0: nat, d1: nat, d2: nat) {
    && |x| == d0
    && (forall a :: 0 <= a < d0 ==> |x[a]| == d1)
    && (forall a, b :: 0 <= a < d0 && 0 <= b < d1 ==> |x[a][b]| == d2)
  }

  /** Boxes of the same shape that agree everywhere are equal. */
  lemma BoxEqual<T>(x: seq<seq<seq<T>>>, y: seq<seq<seq<T>>>, d0: nat, d1: nat, d2: nat)
    requires IsBox3(x, d0, d1, d2) && IsBox3(y, d0, d1, d2)
    requires forall a, b, c :: 0 <= a < d0 && 0 <= b < d1 && 0 <= c < d2 ==> x[a][b][c] == y[a][b][c]
    ensures x == y
  {
    forall a | 0 <= a < d0
      ensures x[a] == y[a]
    {
      forall b | 0 <= b < d1
        ensures x[a][b] == y[a][b]
      {
        assert forall c :: 0 <= c < d2 ==> x[a][b][c] == y[a][b][c];
      }
    }
  }

  /** Row-major flattening: the nested loops `for a: for b: for c: append x[a][b][c]`. */
  function Flatten3<T>(x: seq<seq<seq<T>>>): seq<T>
  {
    Concat(seq(|x|, a requires 0 <= a < |x| => Concat(x[a])))
  }

  lemma Flatten3Index<T>(x: seq<seq<seq<T>>>, d0: nat, d1: nat, d2: nat)
    requires IsBox3(x, d0, d1, d2)
    ensures |Flatten3(x)| == d0 * d1 * d2
    ensures forall a, b, c :: 0 <= a < d0 && 0 <= b < d1 && 0 <= c < d2 ==>
              Idx3(a, b, c, d1, d2) < |Flatten3(x)| && Flatten3(x)[Idx3(a, b, c, d1, d2)] == x[a][b][c]
  {
    Flatten3Length(x, d0, d1, d2);
    forall a, b, c | 0 <= a < d0 && 0 <= b < d1 && 0 <= c < d2
      ensures Idx3(a, b, c, d1, d2) < |Flatten3(x)| && Flatten3(x)[Idx3(a, b, c, d1, d2)] == x[a][b][c]
    {
      Flatten3IndexAt(x, d0, d1, d2, a, b, c);
    }
  }

  lemma Flatten3Length<T>(x: seq<seq<seq<T>>>, d0: nat, d1: nat, d2: nat)
    requires IsBox3(x, d0, d1, d2)
    ensures |Flatten3(x)| == d0 * d1 * d2
  {
    var planes := seq(|x|, a requires 0 <= a < |x| => Concat(x[a]));
    forall a | 0 <= a < d0
      ensures |planes[a]| == d1 * d2
    {
      ConcatRectLength(x[a], d2);
    }
    ConcatRectLength(planes, d1 * d2);
  }

  lemma Flatten3IndexAt<T>(x: seq<seq<seq<T>>>, d0: nat, d1: nat, d2: nat, a: nat, b: nat, c: nat)
    requires IsBox3(x, d0, d1, d2)
    requires a < d0 && b < d1 && c < d2
    ensures Idx3(a, b, c, d1, d2) < |Flatten3(x)|
    ensures Flatten3(x)[Idx3(a, b, c, d1, d2)] == x[a][b][c]
  {
    var planes := seq(|x|, a requires 0 <= a < |x| => Concat(x[a]));
    forall a' | 0 <= a' < d0
      ensures |planes[a']| == d1 * d2
    {
      ConcatRectLength(x[a'], d2);
    }
    Idx3Split(a, b, c, d1, d2);
    ConcatRectAt(x[a], d2, b, c);
    ConcatRectAt(planes, d1 * d2, a, b * d2 + c);
  }

  lemma Idx3Split(a: nat, b: nat, c: nat, d1: nat, d2: nat)
    requires b < d1 && c < d2
    ensures b * d2 + c < d1 * d2
    ensures Idx3(a, b, c, d1, d2) == a * (d1 * d2) + (b * d2 + c)
  {
    CoordsIdx3(0, b, c, 1, d1, d2);
  }

  /** The same fact read position by position: position `p` holds the element
      at the coordinates decoded from `p`. */
  lemma Flatten3At<T>(x: seq<seq<seq<T>>>, d0: nat, d1: nat, d2: nat)
    requires IsBox3(x, d0, d1, d2) && d1 > 0 && d2 > 0
    ensures |Flatten3(x)| == d0 * d1 * d2
    ensures forall p :: 0 <= p < d0 * d1 * d2 ==>
              Hi(p, d1, d2) < d0 && Mid(p, d1, d2) < d1 && Lo(p, d2) < d2 &&
              Flatten3(x)[p] == x[Hi(p, d1, d2)][Mid(p, d1, d2)][Lo(p, d2)]
  {
    Flatten3Index(x, d0, d1, d2);
    forall p | 0 <= p < d0 * d1 * d2
      ensures Hi(p, d1, d2) < d0 && Mid(p, d1, d2) < d1 && Lo(p, d2) < d2
      ensures Flatten3(x)[p] == x[Hi(p, d1, d2)][Mid(p, d1, d2)][Lo(p, d2)]
    {
      Idx3Coords(p, d0, d1, d2);
    }
  }

  /** `x[a][b][c] = v` on a nested list. */
  function Set3<T>(x: seq<seq<seq<T>>>, a: nat, b: nat, c: nat, v: T): seq<seq<seq<T>>>
    requires a < |x| && b < |x[a]| && c < |x[a][b]|
  {
    x[a := x[a][b := x[a][b][c := v]]]
  }

  /** Writing one element of a box writes one position of its flattening. */
  lemma Flatten3Set<T>(x: seq<seq<seq<T>>>, d0: nat, d1: nat, d2: nat, a: nat, b: nat, c: nat, v: T)
    requires IsBox3(x, d0, d1, d2) && a < d0 && b < d1 && c < d2
    ensures IsBox3(Set3(x, a, b, c, v), d0, d1, d2)
    ensures Idx3(a, b, c, d1, d2) < |Flatten3(x)|
    ensures Flatten3(Set3(x, a, b, c, v)) == Flatten3(x)[Idx3(a, b, c, d1, d2) := v]
  {
    var y := Set3(x, a, b, c, v);
    var q := Idx3(a, b, c, d1, d2);
    assert IsBox3(y, d0, d1, d2);
    Flatten3At(x, d0, d1, d2);
    Flatten3At(y, d0, d1, d2);
    CoordsIdx3(a, b, c, d0, d1, d2);
    forall p | 0 <= p < d0 * d1 * d2
      ensures Flatten3(y)[p] == Flatten3(x)[q := v][p]
    {
      if p != q {
        Idx3Coords(p, d0, d1, d2);
      }
    }
  }

  // ---------------------------------------------------------------------
  // Reversal: Python's s[::-1]
  // ---------------------------------------------------------------------

  function Reverse<T>(s: seq<T>): (r: seq<T>)
    ensures |r| == |s|
    ensures forall i :: 0 <= i < |s| ==> r[i] == s[|s| - 1 - i]
  {
    if |s| == 0 then [] else Reverse(s[1..]) + [s[0]]
  }

  lemma ReverseReverse<T>(s: seq<T>)
    ensures Reverse(Reverse(s)) == s
  {
  }
}

/** Python's "fill a list with a default, then assign each slot from a loop
    nest" idiom (`arr = ['0'] * N; ...; arr[idx] = v`). */
module Scatter {
  import opened Layout
  import opened Sequences

  predicate InRange<T>(ws: seq<(nat, T)>, n: nat) {
    forall k :: 0 <= k < |ws| ==> ws[k].0 < n
  }

  /** Apply the writes `base[i] := v` in order; a later write to the same slot wins. */
  function Scatter<T>(base: seq<T>, ws: seq<(nat, T)>): (r: seq<T>)
    requires InRange(ws, |base|)
    ensures |r| == |base|
    decreases |ws|
  {
    if |ws| == 0 then base
    else Scatter(base, ws[..|ws| - 1])[ws[|ws| - 1].0 := ws[|ws| - 1].1]
  }

  /** A slot no write names keeps its default. */
  lemma {:induction false} ScatterUntouched<T>(base: seq<T>, ws: seq<(nat, T)>, i: nat)
    requires InRange(ws, |base|) && i < |base|
    requires forall k :: 0 <= k < |ws| ==> ws[k].0 != i
    ensures Scatter(base, ws)[i] == base[i]
    decreases |ws|
  {
    if |ws| > 0 {
      ScatterUntouched(base, ws[..|ws| - 1], i);
    }
  }

  /** A slot named by exactly one write holds that write's value. */
  lemma {:induction false} ScatterUnique<T>(base: seq<T>, ws: seq<(nat, T)>, j: nat)
    requires InRange(ws, |base|) && j < |ws|
    requires forall k :: 0 <= k < |ws| && k != j ==> ws[k].0 != ws[j].0
    ensures Scatter(base, ws)[ws[j].0] == ws[j].1
    decreases |ws|
  {
    var last := |ws| - 1;
    if j < last {
      var pre := ws[..last];
      assert pre[j] == ws[j];
      ScatterUnique(base, pre, j);
    }
  }

  // ---------------------------------------------------------------------
  // A loop nest over a d0 x d1 x d2 source writing into a flat target
  // ---------------------------------------------------------------------

  /** Where the loop nest `for a: for b: for c:` sends element `[a][b][c]`. */
  datatype Order =
    | SameOrder     // target index Idx3(a, b, c): the target box is [a][b][c]
    | FirstToLast   // the target box is [b][c][a]
    | LastToFirst   // the target box is [c][a][b]

  /** The coordinates of source element `(a, b, c)` in the target box. */
  function Perm(o: Order, a: nat, b: nat, c: nat): (nat, nat, nat) {
    match o
    case SameOrder => (a, b, c)
    case FirstToLast => (b, c, a)
    case LastToFirst => (c, a, b)
  }

  /** The target box's sizes. */
  function Dims(o: Order, d0: nat, d1: nat, d2: nat): (nat, nat, nat) {
    Perm(o, d0, d1, d2)
  }

  function Target(o: Order, a: nat, b: nat, c: nat, d0: nat, d1: nat, d2: nat): nat {
    var (i, j, k) := Perm(o, a, b, c);
    var (_, e1, e2) := Dims(o, d0, d1, d2);
    Idx3(i, j, k, e1, e2)
  }

  /** The source re-arranged into the target box. */
  function Permute<T>(x: seq<seq<seq<T>>>, o: Order, d0: nat, d1: nat, d2: nat): (y: seq<seq<seq<T>>>)
    requires IsBox3(x, d0, d1, d2)
    ensures IsBox3(y, Dims(o, d0, d1, d2).0, Dims(o, d0, d1, d2).1, Dims(o, d0, d1, d2).2)
    ensures forall a, b, c :: 0 <= a < d0 && 0 <= b < d1 && 0 <= c < d2 ==>
              y[Perm(o, a, b, c).0][Perm(o, a, b, c).1][Perm(o, a, b, c).2] == x[a][b][c]
  {
    match o
    case SameOrder => x
    case FirstToLast =>
      seq(d1, i requires 0 <= i < d1 => seq(d2, j requires 0 <= j < d2 =>
        seq(d0, k requires 0 <= k < d0 => x[k][i][j])))
    case LastToFirst =>
      seq(d2, i requires 0 <= i < d2 => seq(d0, j requires 0 <= j < d0 =>
        seq(d1, k requires 0 <= k < d1 => x[j][k][i])))
  }

  /** The writes of the loop nest, in loop order: (target slot, value). */
  function Writes<T>(x: seq<seq<seq<T>>>, o: Order, d0: nat, d1: nat, d2: nat): seq<(nat, T)>
    requires IsBox3(x, d0, d1, d2)
  {
    Flatten3(seq(d0, a requires 0 <= a < d0 => seq(d1, b requires 0 <= b < d1 =>
      seq(d2, c requires 0 <= c < d2 => (Target(o, a, b, c, d0, d1, d2), x[a][b][c])))))
  }

  /** Source coordinates of target element `(i, j, k)`: the inverse of `Perm`. */
  function Unperm(o: Order, i: nat, j: nat, k: nat): (nat, nat, nat) {
    match o
    case SameOrder => (i, j, k)
    case FirstToLast => (k, i, j)
    case LastToFirst => (j, k, i)
  }

  lemma DimsProduct(o: Order, d0: nat, d1: nat, d2: nat)
    ensures Dims(o, d0, d1, d2).0 * Dims(o, d0, d1, d2).1 * Dims(o, d0, d1, d2).2 == d0 * d1 * d2
  {
  }

  lemma TargetInBox(o: Order, a: nat, b: nat, c: nat, d0: nat, d1: nat, d2: nat)
    requires a < d0 && b < d1 && c < d2
    ensures Target(o, a, b, c, d0, d1, d2) < d0 * d1 * d2
  {
    var (i, j, k) := Perm(o, a, b, c);
    var (e0, e1, e2) := Dims(o, d0, d1, d2);
    CoordsIdx3(i, j, k, e0, e1, e2);
    DimsProduct(o, d0, d1, d2);
  }

  lemma TargetInjective(o: Order, a: nat, b: nat, c: nat, a': nat, b': nat, c': nat, d0: nat, d1: nat, d2: nat)
    requires a < d0 && b < d1 && c < d2 && a' < d0 && b' < d1 && c' < d2
    requires Target(o, a, b, c, d0, d1, d2) == Target(o, a', b', c', d0, d1, d2)
    ensures a == a' && b == b' && c == c'
  {
    var (i, j, k) := Perm(o, a, b, c);
    var (i', j', k') := Perm(o, a', b', c');
    var (e0, e1, e2) := Dims(o, d0, d1, d2);
    Idx3Injective(i, j, k, i', j', k', e0, e1, e2);
  }

  /** The loop nest has one write per source element, in row-major order. */
  lemma WritesAt<T>(x: seq<seq<seq<T>>>, o: Order, d0: nat, d1: nat, d2: nat)
    requires IsBox3(x, d0, d1, d2)
    ensures |Writes(x, o, d0, d1, d2)| == d0 * d1 * d2
    ensures forall a, b, c :: 0 <= a < d0 && 0 <= b < d1 && 0 <= c < d2 ==>
              Idx3(a, b, c, d1, d2) < |Writes(x, o, d0, d1, d2)| &&
              Writes(x, o, d0, d1, d2)[Idx3(a, b, c, d1, d2)] == (Target(o, a, b, c, d0, d1, d2), x[a][b][c])
  {
    var nest := seq(d0, a requires 0 <= a < d0 => seq(d1, b requires 0 <= b < d1 =>
      seq(d2, c requires 0 <= c < d2 => (Target(o, a, b, c, d0, d1, d2), x[a][b][c]))));
    assert IsBox3(nest, d0, d1, d2);
    Flatten3Index(nest, d0, d1, d2);
  }

  lemma WritesInRange<T>(x: seq<seq<seq<T>>>, o: Order, d0: nat, d1: nat, d2: nat)
    requires IsBox3(x, d0, d1, d2)
    ensures |Writes(x, o, d0, d1, d2)| == d0 * d1 * d2
    ensures InRange(Writes(x, o, d0, d1, d2), d0 * d1 * d2)
  {
    WritesAt(x, o, d0, d1, d2);
    var ws := Writes(x, o, d0, d1, d2);
    forall w | 0 <= w < |ws|
      ensures ws[w].0 < d0 * d1 * d2
    {
      Idx3Coords(w, d0, d1, d2);
      var (a, b, c) := (Hi(w, d1, d2), Mid(w, d1, d2), Lo(w, d2));
      TargetInBox(o, a, b, c, d0, d1, d2);
    }
  }

  /** `arr = [fill] * N`, then the loop nest assigns `arr[target] = x[a][b][c]`. */
  function ScatterPack<T>(x: seq<seq<seq<T>>>, o: Order, d0: nat, d1: nat, d2: nat, fill: T): (r: seq<T>)
    requires IsBox3(x, d0, d1, d2)
    ensures |r| == d0 * d1 * d2
  {
    WritesInRange(x, o, d0, d1, d2);
    Scatter(seq(d0 * d1 * d2, _ => fill), Writes(x, o, d0, d1, d2))
  }

  /** Every slot of the target is written exactly once, so no default survives:
      the scattered list is the row-major flattening of the re-arranged box. */
  lemma ScatterPackIsFlatten<T>(x: seq<seq<seq<T>>>, o: Order, d0: nat, d1: nat, d2: nat, fill: T)
    requires IsBox3(x, d0, d1, d2)
    ensures ScatterPack(x, o, d0, d1, d2, fill) == Flatten3(Permute(x, o, d0, d1, d2))
  {
    var y := Permute(x, o, d0, d1, d2);
    var (e0, e1, e2) := Dims(o, d0, d1, d2);
    Flatten3Length(y, e0, e1, e2);
    DimsProduct(o, d0, d1, d2);
    var r := ScatterPack(x, o, d0, d1, d2, fill);
    forall p | 0 <= p < d0 * d1 * d2
      ensures r[p] == Flatten3(y)[p]
    {
      ScatterPackAt(x, o, d0, d1, d2, fill, p);
    }
  }

  lemma ScatterPackAt<T>(x: seq<seq<seq<T>>>, o: Order, d0: nat, d1: nat, d2: nat, fill: T, p: nat)
    requires IsBox3(x, d0, d1, d2) && p < d0 * d1 * d2
    ensures p < |Flatten3(Permute(x, o, d0, d1, d2))|
    ensures ScatterPack(x, o, d0, d1, d2, fill)[p] == Flatten3(Permute(x, o, d0, d1, d2))[p]
  {
    var y := Permute(x, o, d0, d1, d2);
    var (e0, e1, e2) := Dims(o, d0, d1, d2);
    DimsProduct(o, d0, d1, d2);
    Flatten3At(y, e0, e1, e2);
    var a, b, c := SourceOf(o, p, d0, d1, d2);
    assert Flatten3(y)[p] == x[a][b][c];
    WritesInRange(x, o, d0, d1, d2);
    WritesAt(x, o, d0, d1, d2);
    var ws := Writes(x, o, d0, d1, d2);
    var w := Idx3(a, b, c, d1, d2);
    assert ws[w] == (p, x[a][b][c]);
    WritesUnique(x, o, d0, d1, d2, a, b, c);
    ScatterUnique(seq(d0 * d1 * d2, _ => fill), ws, w);
  }

  /** The source element that the loop nest sends to position `p`. */
  lemma SourceOf(o: Order, p: nat, d0: nat, d1: nat, d2: nat) returns (a: nat, b: nat, c: nat)
    requires p < d0 * d1 * d2
    ensures a < d0 && b < d1 && c < d2
    ensures Target(o, a, b, c, d0, d1, d2) == p
    ensures var (i, j, k) := Perm(o, a, b, c); var (_, e1, e2) := Dims(o, d0, d1, d2);
            e1 > 0 && e2 > 0 && i == Hi(p, e1, e2) && j == Mid(p, e1, e2) && k == Lo(p, e2)
  {
    var (e0, e1, e2) := Dims(o, d0, d1, d2);
    DimsProduct(o, d0, d1, d2);
    var (i, j, k) := (Hi(p, e1, e2), Mid(p, e1, e2), Lo(p, e2));
    Idx3Coords(p, e0, e1, e2);
    a, b, c := Unperm(o, i, j, k).0, Unperm(o, i, j, k).1, Unperm(o, i, j, k).2;
    assert Perm(o, a, b, c) == (i, j, k);
  }

  /** No other write of the loop nest lands on the target of `[a][b][c]`. */
  lemma WritesUnique<T>(x: seq<seq<seq<T>>>, o: Order, d0: nat, d1: nat, d2: nat, a: nat, b: nat, c: nat)
    requires IsBox3(x, d0, d1, d2) && a < d0 && b < d1 && c < d2
    ensures forall w' :: 0 <= w' < |Writes(x, o, d0, d1, d2)| && w' != Idx3(a, b, c, d1, d2) ==>
              Writes(x, o, d0, d1, d2)[w'].0 != Target(o, a, b, c, d0, d1, d2)
  {
    WritesAt(x, o, d0, d1, d2);
    var ws := Writes(x, o, d0, d1, d2);
    var p := Target(o, a, b, c, d0, d1, d2);
    forall w' | 0 <= w' < |ws| && w' != Idx3(a, b, c, d1, d2)
      ensures ws[w'].0 != p
    {
      Idx3Coords(w', d0, d1, d2);
      var (a', b', c') := (Hi(w', d1, d2), Mid(w', d1, d2), Lo(w', d2));
      assert ws[w'] == (Target(o, a', b', c', d0, d1, d2), x[a'][b'][c']);
      if ws[w'].0 == p {
        TargetInjective(o, a, b, c, a', b', c', d0, d1, d2);
        assert false;
      }
    }
  }
}
