/** The Internet checksum (RFC 1071): the sum of big-endian 16-bit words, folded to 16 bits and
    complemented. */
module Checksum {
  import opened Layout

  /** The plain sum of the words, an odd last byte padded with zero. */
  function WordSum(data: seq<Byte>): nat {
    if data == [] then 0
    else if |data| == 1 then 256 * data[0]
    else 256 * data[0] + data[1] + WordSum(data[2..])
  }

  lemma {:induction false} SumBound(data: seq<Byte>)
    ensures WordSum(data) <= 65535 * ((|data| + 1) / 2)
  {
    if |data| >= 2 { SumBound(data[2..]); }
  }

  lemma {:induction false} SumConcat(a: seq<Byte>, b: seq<Byte>)
    requires |a| % 2 == 0
    ensures WordSum(a + b) == WordSum(a) + WordSum(b)
    decreases |a|
  {
    if a == [] {
      assert a + b == b;
    } else {
      assert (a + b)[2..] == a[2..] + b;
      SumConcat(a[2..], b);
    }
  }

  // The 16-bit number that folding ends with: the residue modulo 65535, with 65535 in place of a
  // residue 0 that is not the number 0.
  function Folded(sum: nat): (r: nat)
    ensures r <= 65535 && (r == 0 <==> sum == 0)
  { if sum == 0 then 0 else (sum - 1) % 65535 + 1 }

  /** Adding the high half to the low half keeps the folded value. */
  lemma FoldStep(sum: nat)
    ensures Folded(sum % 65536 + sum / 65536) == Folded(sum)
  {
    var q, r := sum / 65536, sum % 65536;
    assert sum == 65535 * q + (q + r);
    if sum > 0 {
      assert sum - 1 == 65535 * q + (q + r - 1);
      assert (sum - 1) % 65535 == (q + r - 1) % 65535;
    }
  }

  /** The accumulation loop; the 32-bit accumulator cannot overflow on data of these lengths. */
  method Accumulate(data: seq<Byte>, start: nat) returns (sum: nat)
    requires start + 65535 * ((|data| + 1) / 2) < 0x1_0000_0000
    ensures sum == start + WordSum(data) < 0x1_0000_0000
  {
    sum := start;
    var rest := data;
    SumBound(data);
    while |rest| >= 2
      invariant sum + WordSum(rest) == start + WordSum(data)
      decreases |rest|
    {
      var high: nat, low: nat := rest[0], rest[1];
      sum := sum + 256 * high + low;
      rest := rest[2..];
    }
    if rest != [] {
      var high: nat := rest[0];
      sum := sum + 256 * high;
    }
  }

  method Fold(start: nat) returns (sum: nat)
    ensures sum == Folded(start)
  {
    sum := start;
    while sum / 65536 != 0
      invariant Folded(sum) == Folded(start)
      decreases sum
    {
      FoldStep(sum);
      sum := sum % 65536 + sum / 65536;
    }
  }

  function Complement(sum: nat): nat { 65535 - Folded(sum) }

  /** net_checksum */
  method Compute(data: seq<Byte>) returns (r: nat)
    requires |data| <= 65535
    ensures r == Complement(WordSum(data))
  {
    var sum := Accumulate(data, 0);
    sum := Fold(sum);
    r := 65535 - sum;
  }

  /** Data checks out exactly if its words sum to a multiple of 65535 other than zero. */
  lemma ChecksOut(data: seq<Byte>)
    ensures Complement(WordSum(data)) == 0 <==> WordSum(data) > 0 && WordSum(data) % 65535 == 0
  {
    var s := WordSum(data);
    if s > 0 {
      var q, r := (s - 1) / 65535, (s - 1) % 65535;
      assert s == 65535 * q + (r + 1);
      if r + 1 == 65535 { assert s == 65535 * (q + 1); } else { assert s % 65535 == r + 1; }
    }
  }

  /** Data with its own checksum in place checks out. */
  lemma SelfCheck(sum: nat)
    requires sum > 0
    ensures Folded(sum + Complement(sum)) == 65535
  {
    var q, r := (sum - 1) / 65535, (sum - 1) % 65535;
    assert sum - 1 == 65535 * q + r;
    assert sum + Complement(sum) - 1 == 65535 * q + 65534;
    assert (65535 * q + 65534) % 65535 == 65534;
  }
}
