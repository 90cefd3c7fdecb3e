/** The Internet checksum (RFC 1071): a 32-bit accumulator folded to 16 bits, against the ones' complement sum. */
module Checksum {
  import opened Wire

  const WRAP := 0x1_0000_0000

  /** The plain sum of the 16-bit words; an odd last byte is the high half of a word. */
  function WordSum(b: Bytes): nat {
    if b == [] then 0
    else if |b| == 1 then High(b[0])
    else High(b[0]) + b[1] + WordSum(b[2..])
  }

  function High(b: byte): nat {
    b * 256
  }

  /** The sum with the carry added back. */
  function Combine(a: u16, b: u16): u16 {
    var v: int := a + b;
    (v + v / 0x1_0000) % 0x1_0000
  }

  function Fold(v: u32): u16 {
    Combine(v % 0x1_0000, v / 0x1_0000)
  }

  /** The accumulator after adding up `total`. */
  function Wrapped(total: nat): u32 {
    total % WRAP
  }

  /** What the source computes: the accumulator wraps at 32 bits. */
  function Sum(buf: Bytes, initial: u16): u16 {
    Fold(Wrapped(initial + WordSum(buf)))
  }

  /** The ones' complement sum of words that add up to `v`: zero only for zero, otherwise in 1..65535. */
  function OnesSum(v: nat): u16 {
    if v == 0 then 0 else (v - 1) % 0xffff + 1
  }

  // The ones' complement sum.

  lemma {:induction false} OnesSumUnique(k: nat, r: nat)
    requires 1 <= r <= 0xffff
    ensures OnesSum(k * 0xffff + r) == r
  {
    var v := k * 0xffff + r;
    assert (v - 1) % 0xffff == r - 1 by {
      Remainder(v - 1, k, r - 1);
    }
  }

  lemma {:induction false} Remainder(v: int, k: int, r: int)
    requires v == k * 0xffff + r && 0 <= r < 0xffff
    ensures v % 0xffff == r && v / 0xffff == k
  {
  }

  /** A sum is its ones' complement sum and some rounds of 65535. */
  lemma {:induction false} OnesSumSplit(v: nat) returns (k: nat)
    ensures v == k * 0xffff + OnesSum(v)
  {
    k := if v == 0 then 0 else (v - 1) / 0xffff;
  }

  lemma {:induction false} OnesSumAbsorbs(x: nat, y: nat)
    ensures OnesSum(OnesSum(x) + y) == OnesSum(x + y)
  {
    var k := OnesSumSplit(x);
    var w := OnesSum(x) + y;
    var j := OnesSumSplit(w);
    if w > 0 {
      assert x + y == (k + j) * 0xffff + OnesSum(w);
      OnesSumUnique(k + j, OnesSum(w));
    }
  }

  /** Adding the complement of a sum makes the sum all ones. */
  lemma {:induction false} ComplementVerifies(x: nat)
    ensures OnesSum(x + (0xffff - OnesSum(x))) == 0xffff
  {
    var k := OnesSumSplit(x);
    assert x + (0xffff - OnesSum(x)) == k * 0xffff + 0xffff;
    OnesSumUnique(k, 0xffff);
  }

  // The fold.

  lemma {:induction false} FoldIsOnesSum(v: u32)
    ensures Fold(v) == OnesSum(v)
  {
    var hi, lo := v / 0x1_0000, v % 0x1_0000;
    var s := hi + lo;
    assert v == hi * 0xffff + s;
    if s == 0 {
      assert v == 0;
    } else if s <= 0xffff {
      OnesSumUnique(hi, s);
    } else {
      OnesSumUnique(hi + 1, s - 0xffff);
    }
  }

  /**
   A wrap loses a multiple of 2^32, which is 1 more than a multiple of 65535: the sum is
   right exactly when the number of wraps is a multiple of 65535 and something is left.
   */
  lemma {:induction false} SumIsRightIff(buf: Bytes, initial: u16)
    ensures Sum(buf, initial) == OnesSum(initial + WordSum(buf)) <==> WrapsDoNotShow(initial + WordSum(buf))
  {
    FoldIsRightIff(initial + WordSum(buf));
  }

  predicate WrapsDoNotShow(total: nat) {
    total / WRAP == 0 || (total / WRAP % 0xffff == 0 && total % WRAP != 0)
  }

  lemma {:induction false} FoldIsRightIff(total: nat)
    ensures Fold(Wrapped(total)) == OnesSum(total) <==> WrapsDoNotShow(total)
  {
    var wraps, left := total / WRAP, total % WRAP;
    FoldIsOnesSum(left);
    assert total == wraps * WRAP + left;
    WrapsMatter(wraps, left, total);
  }

  lemma {:induction false} WrapsMatter(wraps: nat, left: nat, total: nat)
    requires total == wraps * WRAP + left && left < WRAP
    ensures OnesSum(left) == OnesSum(total) <==> wraps == 0 || (wraps % 0xffff == 0 && left != 0)
  {
    var k := OnesSumSplit(left);
    var a: int := OnesSum(left);
    var n := wraps * 0x1_0001 + k;
    assert total == n * 0xffff + (wraps + a);
    if wraps > 0 {
      var j, r := wraps / 0xffff, wraps % 0xffff;
      assert wraps == j * 0xffff + r;
      if r + a == 0 {
        OnesSumUnique(n + j - 1, 0xffff);
      } else if r + a <= 0xffff {
        assert total == (n + j) * 0xffff + (r + a);
        OnesSumUnique(n + j, r + a);
      } else {
        assert total == (n + j + 1) * 0xffff + (r + a - 0xffff);
        OnesSumUnique(n + j + 1, r + a - 0xffff);
      }
    }
  }

  /** No wrap happens in up to 131072 bytes, whatever the initial sum. */
  lemma {:induction false} SumIsOnesSum(buf: Bytes, initial: u16)
    requires |buf| <= 0x2_0000
    ensures Sum(buf, initial) == OnesSum(initial + WordSum(buf))
  {
    WordSumBound(buf);
    assert (|buf| + 1) / 2 <= 0x1_0000;
    NoWrap(initial + WordSum(buf));
    FoldIsOnesSum(initial + WordSum(buf));
  }

  lemma {:induction false} NoWrap(total: nat)
    requires total < WRAP
    ensures Wrapped(total) == total
  {
  }

  lemma {:induction false} WordSumBound(b: Bytes)
    ensures WordSum(b) <= (|b| + 1) / 2 * 0xffff
  {
    if |b| > 1 {
      WordSumBound(b[2..]);
    }
  }

  /** One byte more is too much: with an initial sum, all ones in 131073 bytes are summed wrongly. */
  lemma {:induction false} SumWraps(buf: Bytes)
    requires |buf| == 0x2_0001 && forall i | 0 <= i < |buf| :: buf[i] == 255
    ensures Sum(buf, 0xffff) != OnesSum(0xffff + WordSum(buf))
  {
    AllOnes(buf);
    SumIsRightIff(buf, 0xffff);
  }

  lemma {:induction false} AllOnes(b: Bytes)
    requires forall i | 0 <= i < |b| :: b[i] == 255
    ensures WordSum(b) == |b| / 2 * 0xffff + |b| % 2 * 0xff00
  {
    if |b| > 1 {
      AllOnes(b[2..]);
    }
  }

  // Summing in parts.

  lemma {:induction false} WordSumConcat(a: Bytes, b: Bytes)
    requires |a| % 2 == 0
    ensures WordSum(a + b) == WordSum(a) + WordSum(b)
  {
    if a == [] {
      assert a + b == b;
    } else {
      assert (a + b)[2..] == a[2..] + b;
      WordSumConcat(a[2..], b);
    }
  }

  /** The sum of what comes first is the initial sum of what follows, provided it covers whole words. */
  lemma {:induction false} SumConcat(a: Bytes, b: Bytes, initial: u16)
    requires |a| % 2 == 0 && |a| + |b| <= 0x2_0000
    ensures Sum(b, Sum(a, initial)) == Sum(a + b, initial)
  {
    SumIsOnesSum(a, initial);
    SumIsOnesSum(b, Sum(a, initial));
    SumIsOnesSum(a + b, initial);
    WordSumConcat(a, b);
    OnesSumAbsorbs(initial + WordSum(a), WordSum(b));
  }

  /** Each sum is the initial sum of the next. */
  function SumAll(parts: seq<Bytes>, initial: u16): u16
    decreases parts
  {
    if parts == [] then initial else SumAll(parts[1..], Sum(parts[0], initial))
  }

  function WordSums(parts: seq<Bytes>): nat {
    if parts == [] then 0 else WordSum(parts[0]) + WordSums(parts[1..])
  }

  /** Every part may be odd here: its last byte counts as the high half of a word of its own. */
  lemma {:induction false} SumAllIsOnesSum(parts: seq<Bytes>, x: nat)
    requires forall p | p in parts :: |p| <= 0x2_0000
    ensures SumAll(parts, OnesSum(x)) == OnesSum(x + WordSums(parts))
    decreases parts
  {
    if parts != [] {
      SumOnTop(parts[0], x);
      SumAllIsOnesSum(parts[1..], x + WordSum(parts[0]));
    }
  }

  lemma {:induction false} SumOnTop(buf: Bytes, x: nat)
    requires |buf| <= 0x2_0000
    ensures Sum(buf, OnesSum(x)) == OnesSum(x + WordSum(buf))
  {
    SumIsOnesSum(buf, OnesSum(x));
    OnesSumAbsorbs(x, WordSum(buf));
  }

  /** Combining the sums of two parts gives the sum of the whole, provided the first covers whole words. */
  lemma {:induction false} CombineParts(a: Bytes, b: Bytes)
    requires |a| % 2 == 0 && |a| + |b| <= 0x2_0000
    ensures Combine(Sum(a, 0), Sum(b, 0)) == Sum(a + b, 0)
  {
    SumIsOnesSum(a, 0);
    SumIsOnesSum(b, 0);
    SumIsOnesSum(a + b, 0);
    WordSumConcat(a, b);
    CombineOnesSums(WordSum(a), WordSum(b));
  }

  lemma {:induction false} CombineOnesSums(x: nat, y: nat)
    ensures Combine(OnesSum(x), OnesSum(y)) == OnesSum(x + y)
  {
    CombineIsOnesSum(OnesSum(x), OnesSum(y));
    OnesSumAbsorbs(x, OnesSum(y));
    OnesSumAbsorbs(y, x);
  }

  lemma {:induction false} CombineIsOnesSum(x: u16, y: u16)
    ensures Combine(x, y) == OnesSum(x + y)
  {
    var s: int := x + y;
    if 0 < s <= 0xffff {
      OnesSumUnique(0, s);
    } else if s > 0xffff {
      OnesSumUnique(1, s - 0xffff);
    }
  }

  /** Odd parts do not compose: a byte that was the high half of a word becomes the low half. */
  lemma {:induction false} OddPartsDiffer()
    ensures Sum([0, 1], 0) != Sum([1], Sum([0], 0))
  {
    SumIsOnesSum([0, 1], 0);
    SumIsOnesSum([0], 0);
    SumIsOnesSum([1], 0);
    assert [0, 1][2..] == [];
  }

  // The loop.

  method CalculateChecksum(buf: Bytes, initial: u32) returns (r: u16)
    ensures r == Fold(Wrapped(initial + WordSum(buf)))
  {
    var v: u32 := initial;
    var l := |buf|;
    if l % 2 != 0 {
      l := l - 1;
      v := Add(v, High(buf[l]), initial);
    }
    ghost var start := OddStart(buf, initial);
    var i := 0;
    while i < l
      invariant 0 <= i <= l && i % 2 == 0
      invariant v == Wrapped(start + WordSum(buf[..i]))
    {
      NextWord(buf, i);
      v := Add(v, High(buf[i]) + buf[i + 1], start + WordSum(buf[..i]));
      i := i + 2;
    }
    r := Fold(v);
  }

  /** What is accumulated before the loop: an odd last byte comes first. */
  ghost function OddStart(buf: Bytes, initial: u32): (start: nat)
    ensures start + WordSum(buf[..|buf| - |buf| % 2]) == initial + WordSum(buf)
  {
    if |buf| % 2 != 0 then
      OddEnd(buf);
      initial + High(buf[|buf| - 1])
    else
      assert buf[..|buf|] == buf;
      initial
  }

  /** Addition of 32-bit numbers; `total` is what the accumulator stands for. */
  function Add(v: u32, x: nat, ghost total: nat): (r: u32)
    requires v == Wrapped(total)
    ensures r == Wrapped(total + x)
  {
    (v + x) % WRAP
  }

  lemma {:induction false} OddEnd(buf: Bytes)
    requires |buf| % 2 == 1
    ensures WordSum(buf) == WordSum(buf[..|buf| - 1]) + High(buf[|buf| - 1])
  {
    var l := |buf| - 1;
    assert buf == buf[..l] + [buf[l]];
    WordSumConcat(buf[..l], [buf[l]]);
  }

  lemma {:induction false} NextWord(buf: Bytes, i: nat)
    requires i % 2 == 0 && i + 1 < |buf|
    ensures WordSum(buf[..i + 2]) == WordSum(buf[..i]) + (High(buf[i]) + buf[i + 1])
  {
    var word := [buf[i], buf[i + 1]];
    assert buf[..i + 2] == buf[..i] + word;
    WordSumConcat(buf[..i], word);
    assert word[2..] == [];
  }
}
