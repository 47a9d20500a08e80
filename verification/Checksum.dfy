/** net/ip4.c and net/tcp.c: the Internet checksum. */
module Checksum {
  import opened Base

  const ALL_ONES: nat := 0xFFFF
  const WRAP: nat := 0x1_0000_0000

  // ----- what is summed -----

  /** A 16-bit word in memory order on a little-endian machine. */
  function Word(lo: Byte, hi: Byte): nat {
    hi as nat * 256 + lo as nat
  }

  /** The sum of the words of data; a last odd byte counts as a word with a zero after it. */
  function Sum(data: seq<Byte>): nat {
    if data == [] then 0
    else if |data| == 1 then data[0]
    else Word(data[0], data[1]) + Sum(data[2..])
  }

  lemma {:induction false} SumBound(data: seq<Byte>)
    ensures 2 * Sum(data) <= (|data| + 1) * ALL_ONES
    decreases |data|
  {
    if |data| > 1 {
      SumBound(data[2..]);
      assert (|data| + 1) * ALL_ONES == (|data[2..]| + 1) * ALL_ONES + 2 * ALL_ONES;
    }
  }

  /** No packet of up to 65535 bytes overflows the 32-bit sum, even on top of a pseudo-header. */
  lemma NoOverflow(data: seq<Byte>, init: nat)
    requires |data| <= 65535 && init <= 6 * ALL_ONES
    ensures init + Sum(data) + ALL_ONES < WRAP
  {
    SumBound(data);
    assert (|data| + 1) * ALL_ONES <= 65536 * ALL_ONES;
  }

  lemma {:induction false} SumConcat(a: seq<Byte>, b: seq<Byte>)
    requires |a| % 2 == 0
    ensures Sum(a + b) == Sum(a) + Sum(b)
    decreases |a|
  {
    if a == [] {
      assert a + b == b;
    } else {
      assert (a + b)[2..] == a[2..] + b;
      SumConcat(a[2..], b);
    }
  }

  // ----- folding -----

  function Fold(r: nat): (f: nat)
    ensures f <= ALL_ONES && (r > 0 <==> f > 0)
    decreases r
  {
    if r <= ALL_ONES then r else Fold(r / 65536 + r % 65536)
  }

  /** Folding keeps the sum modulo 65535. */
  lemma {:induction false} FoldExact(r: nat) returns (k: nat)
    ensures r == Fold(r) + ALL_ONES * k
    decreases r
  {
    if r <= ALL_ONES {
      k := 0;
    } else {
      var q := r / 65536;
      var k' := FoldExact(q + r % 65536);
      k := q + k';
    }
  }

  /** So it gives the one number from 1 to 65535 that does, when the sum is not zero. */
  lemma FoldUnique(r: nat, f: nat, k: int)
    requires r == f + ALL_ONES * k && 1 <= f <= ALL_ONES && r > 0
    ensures Fold(r) == f
  {
    var k' := FoldExact(r);
  }

  /** ip_checksum, on a sum that fits 32 bits. */
  function Checksum(data: seq<Byte>, init: nat): nat {
    ALL_ONES - Fold(init + Sum(data))
  }

  // ----- checking a checksum -----

  lemma {:induction false} SumStore(data: seq<Byte>, at: nat, lo: Byte, hi: Byte)
    requires at % 2 == 0 && at + 1 < |data| && data[at] == 0 && data[at + 1] == 0
    ensures Sum(data[at := lo][at + 1 := hi]) == Sum(data) + Word(lo, hi)
    decreases |data|
  {
    var d' := data[at := lo][at + 1 := hi];
    if at == 0 {
      assert d'[2..] == data[2..];
    } else {
      assert d'[2..] == data[2..][at - 2 := lo][at - 1 := hi];
      SumStore(data[2..], at - 2, lo, hi);
    }
  }

  /** Storing the checksum in its zeroed, even-aligned field makes the checksum of the whole zero,
      with any initial sum; and neither sum of a packet overflows 32 bits. */
  lemma StoredVerifies(data: seq<Byte>, at: nat, init: nat)
    requires at % 2 == 0 && at + 1 < |data| && data[at] == 0 && data[at + 1] == 0
    ensures var c := Checksum(data, init);
      Checksum(data[at := c % 256][at + 1 := c / 256], init) == 0
    ensures |data| <= 65535 && init <= 6 * ALL_ONES ==>
      var c := Checksum(data, init);
      init + Sum(data) < WRAP && init + Sum(data[at := c % 256][at + 1 := c / 256]) < WRAP
  {
    var c := Checksum(data, init);
    if |data| <= 65535 && init <= 6 * ALL_ONES {
      NoOverflow(data, init);
      NoOverflow(data[at := c % 256][at + 1 := c / 256], init);
    }
    SumStored(data, at, c);
    Complement(init + Sum(data));
  }

  lemma SumStored(data: seq<Byte>, at: nat, c: nat)
    requires at % 2 == 0 && at + 1 < |data| && data[at] == 0 && data[at + 1] == 0 && c <= ALL_ONES
    ensures c / 256 < 256 && Sum(data[at := c % 256][at + 1 := c / 256]) == Sum(data) + c
  {
    SplitWord(c);
    SumStore(data, at, c % 256, c / 256);
  }

  lemma SplitWord(c: nat)
    requires c <= ALL_ONES
    ensures c / 256 < 256 && Word(c % 256, c / 256) == c
  {
  }

  lemma Complement(t: nat)
    ensures Fold(t + (ALL_ONES - Fold(t))) == ALL_ONES
  {
    var k := FoldExact(t);
    FoldUnique(t + (ALL_ONES - Fold(t)), ALL_ONES, k);
  }

  /** A pseudo-header given as the initial sum counts as if it stood before the data. */
  lemma PseudoHeader(header: seq<Byte>, data: seq<Byte>)
    requires |header| % 2 == 0
    ensures Checksum(data, Sum(header)) == Checksum(header + data, 0)
  {
    SumConcat(header, data);
  }

  // ----- byte order -----

  /** The sum a big-endian machine makes. */
  function SumBig(data: seq<Byte>): nat {
    if data == [] then 0
    else if |data| == 1 then Word(0, data[0])
    else Word(data[1], data[0]) + SumBig(data[2..])
  }

  lemma {:induction false} SumsAgree(data: seq<Byte>) returns (k: nat)
    ensures 256 * Sum(data) == SumBig(data) + ALL_ONES * k
    decreases |data|
  {
    if |data| <= 1 {
      k := 0;
    } else {
      var k' := SumsAgree(data[2..]);
      k := k' + data[1];
    }
  }

  function Swap(x: nat): nat
    requires x <= ALL_ONES
  {
    x % 256 * 256 + x / 256
  }

  lemma FoldSwaps(data: seq<Byte>)
    ensures Fold(SumBig(data)) == Swap(Fold(Sum(data)))
  {
    var f := Fold(Sum(data));
    var k := FoldExact(Sum(data));
    var j := SumsAgree(data);
    if f == 0 {
      assert Sum(data) == 0;
    } else {
      assert 256 * f == Swap(f) + ALL_ONES * (f / 256);
      SwapRange(f);
      FoldUnique(SumBig(data), Swap(f), f / 256 + 256 * k - j);
    }
  }

  lemma SwapRange(x: nat)
    requires 1 <= x <= ALL_ONES
    ensures 1 <= Swap(x) <= ALL_ONES
  {
  }

  /** The two bytes a checksum puts in memory do not depend on the machine's byte order. */
  lemma ByteOrder(data: seq<Byte>)
    ensures var le, be := ALL_ONES - Fold(Sum(data)), ALL_ONES - Fold(SumBig(data));
      le % 256 == be / 256 && le / 256 == be % 256
  {
    FoldSwaps(data);
    SwapComplement(Fold(Sum(data)));
  }

  lemma SwapComplement(x: nat)
    requires x <= ALL_ONES
    ensures (ALL_ONES - x) % 256 == (ALL_ONES - Swap(x)) / 256 && (ALL_ONES - x) / 256 == (ALL_ONES - Swap(x)) % 256
  {
    var hi, lo := x / 256, x % 256;
    Digits(255 - hi, 255 - lo);
    Digits(255 - lo, 255 - hi);
    assert ALL_ONES - x == (255 - hi) * 256 + (255 - lo);
    assert ALL_ONES - Swap(x) == (255 - lo) * 256 + (255 - hi);
  }

  lemma Digits(hi: nat, lo: nat)
    requires lo < 256
    ensures (hi * 256 + lo) / 256 == hi && (hi * 256 + lo) % 256 == lo
  {
  }

  // ----- as it is computed -----

  /** A 32-bit accumulator with rest still to be added will come to total. */
  ghost predicate Owes(x: nat, rest: nat, total: nat) {
    x < WRAP && Wrapped(x + rest) == total
  }

  ghost function Wrapped(x: nat): (r: nat)
    ensures x < WRAP ==> r == x
  {
    x % WRAP
  }

  /** A 32-bit addition. */
  method AddWord(x: nat, w: nat, ghost rest: nat, ghost total: nat) returns (r: nat)
    requires Owes(x, w + rest, total)
    ensures Owes(r, rest, total)
  {
    r := (x + w) % WRAP;
    AddWraps(x + w, rest);
  }

  lemma AddWraps(y: nat, rest: nat)
    ensures (y % WRAP + rest) % WRAP == (y + rest) % WRAP
  {
    var q, r := y / WRAP, y % WRAP;
    assert y == WRAP * q + r;
    var q', r' := (r + rest) / WRAP, (r + rest) % WRAP;
    assert y + rest == WRAP * (q + q') + r';
  }

  lemma PaidUp(x: nat, total: nat)
    requires Owes(x, 0, total)
    ensures x == total
  {
  }

  /** The loop over words, and the odd byte. */
  method Accumulate(data: seq<Byte>, init: nat, ghost total: nat) returns (result: nat)
    requires Owes(init, Sum(data), total)
    ensures result == total
  {
    result := init;
    var i: nat := 0;
    assert data[0..] == data;
    while |data| - i > 1
      invariant i <= |data| && Owes(result, Sum(data[i..]), total)
      decreases |data| - i
    {
      assert data[i..][2..] == data[i + 2..];
      result := AddWord(result, Word(data[i], data[i + 1]), Sum(data[i + 2..]), total);
      i := i + 2;
    }
    if |data| - i > 0 {
      result := AddWord(result, data[i], 0, total);
    }
    PaidUp(result, total);
  }

  /** ip_checksum with its 32-bit accumulator. */
  method IpChecksum(data: seq<Byte>, init: nat) returns (c: nat)
    requires init < WRAP
    ensures c == ALL_ONES - Fold(Wrapped(init + Sum(data)))
    ensures init + Sum(data) < WRAP ==> c == Checksum(data, init)
  {
    ghost var total := Wrapped(init + Sum(data));
    var result := Accumulate(data, init, total);
    c := FoldLoop(result);
  }

  /** The folding loop. */
  method FoldLoop(r: nat) returns (c: nat)
    ensures c == ALL_ONES - Fold(r)
  {
    var result: nat := r;
    while result > ALL_ONES
      invariant Fold(result) == Fold(r)
      decreases result
    {
      result := result / 65536 + result % 65536;
    }
    c := ALL_ONES - result;
  }

  /** The sender stores its checksum and the receiver computes it again, both with a 32-bit
      accumulator: a packet of any length arrives with checksum zero, also on top of a pseudo-header. */
  method SendAndVerify(data: seq<Byte>, at: nat, init: nat) returns (sent: seq<Byte>, verdict: nat)
    requires |data| <= 65535 && init <= 6 * ALL_ONES
    requires at % 2 == 0 && at + 1 < |data| && data[at] == 0 && data[at + 1] == 0
    ensures |sent| == |data| && forall k :: 0 <= k < |data| && k != at && k != at + 1 ==> sent[k] == data[k]
    ensures verdict == 0
  {
    StoredVerifies(data, at, init);
    var c := IpChecksum(data, init);
    sent := data[at := c % 256][at + 1 := c / 256];
    verdict := IpChecksum(sent, init);
  }
}
