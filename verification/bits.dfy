/** Single bits, bytes, and the '0'/'1' characters the scripts print them as. */
module Bits {

  /** A bit as the reference scripts hold it: the Python integer 0 or 1. */
  type Bit = b: int | 0 <= b <= 1

  /** An unsigned 8-bit value (`np.uint8`, a `bytearray` element). */
  type Byte = b: int | 0 <= b < 256

  predicate IsBitChar(c: char) {
    c == '0' || c == '1'
  }

  predicate AllBitChars(s: string) {
    forall i :: 0 <= i < |s| ==> IsBitChar(s[i])
  }

  /** `str(b)` for a bit. */
  function BitChar(b: Bit): (c: char)
    ensures IsBitChar(c)
    ensures c == '1' <==> b == 1
  {
    if b == 1 then '1' else '0'
  }

  /** `int(c)` for a character already known to be '0' or '1'. */
  function CharBit(c: char): (b: Bit)
    requires IsBitChar(c)
    ensures BitChar(b) == c
  {
    if c == '1' then 1 else 0
  }

  /** `2 ** k`. */
  function Pow2(k: nat): (p: nat)
    ensures p >= 1
  {
    if k == 0 then 1 else 2 * Pow2(k - 1)
  }

  /** Number of occurrences of `x` in `s`. */
  function Count<T(==)>(s: seq<T>, x: T): (n: nat)
    ensures n <= |s|
  {
    if |s| == 0 then 0 else (if s[0] == x then 1 else 0) + Count(s[1..], x)
  }

  /** `np.sum` of a 0/1 vector: the number of ones. */
  function Popcount(s: seq<Bit>): (n: nat)
    ensures n <= |s|
  {
    Count(s, 1)
  }

  lemma {:induction false} CountAppend<T>(a: seq<T>, b: seq<T>, x: T)
    ensures Count(a + b, x) == Count(a, x) + Count(b, x)
  {
    if |a| == 0 {
      assert a + b == b;
    } else {
      assert (a + b)[1..] == a[1..] + b;
      CountAppend(a[1..], b, x);
    }
  }

  /** Extending a prefix by one bit adds that bit to its popcount. */
  lemma PopcountStep(a: seq<Bit>, t: nat)
    requires 0 < t <= |a|
    ensures Popcount(a[..t]) == Popcount(a[..t - 1]) + a[t - 1]
  {
    assert a[..t] == a[..t - 1] + [a[t - 1]];
    CountAppend(a[..t - 1], [a[t - 1]], 1);
    assert [a[t - 1]][1..] == [];
  }

  /** Every bit is a zero or a one, so the two counts add up to the length. */
  lemma {:induction false} ZerosAndOnes(s: seq<Bit>)
    ensures Count(s, 0) + Count(s, 1) == |s|
  {
    if |s| > 0 {
      ZerosAndOnes(s[1..]);
    }
  }

  /** A vector with no ones is all zeros, and vice versa. */
  lemma {:induction false} PopcountZero(s: seq<Bit>)
    ensures Popcount(s) == 0 <==> forall i :: 0 <= i < |s| ==> s[i] == 0
  {
    if |s| > 0 {
      PopcountZero(s[1..]);
      assert forall i :: 1 <= i < |s| ==> s[i] == s[1..][i - 1];
    }
  }

  /** A vector whose ones number its length is all ones, and vice versa. */
  lemma {:induction false} PopcountFull(s: seq<Bit>)
    ensures Popcount(s) == |s| <==> forall i :: 0 <= i < |s| ==> s[i] == 1
  {
    if |s| > 0 {
      PopcountFull(s[1..]);
      assert forall i :: 1 <= i < |s| ==> s[i] == s[1..][i - 1];
    }
  }

  /** Setting one bit adds one to the popcount, unless it was already set. */
  lemma PopcountSet(s: seq<Bit>, p: nat)
    requires p < |s|
    ensures Popcount(s[p := 1]) == Popcount(s) + (1 - s[p])
  {
    var pre, post := s[..p], s[p + 1..];
    assert s == pre + ([s[p]] + post);
    assert s[p := 1] == pre + ([1] + post);
    CountAppend(pre, [s[p]] + post, 1);
    CountAppend(pre, [1] + post, 1);
    CountAppend([s[p]], post, 1);
    CountAppend([1], post, 1);
  }
}
