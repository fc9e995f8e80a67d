/** Bytes, the fixed eight-byte big-endian integers of the container format, and a buffered sink. */
module Bytes {
  import opened Numbers

  type byte = x: int | 0 <= x < 256
  type bytes = seq<byte>

  const INT64_SIZE: nat := 8

  function Pow256(k: nat): (p: nat)
    ensures p > 0
  {
    if k == 0 then 1 else 256 * Pow256(k - 1)
  }

  function BigEndian(n: nat, k: nat): (s: bytes)
    ensures |s| == k
  {
    if k == 0 then [] else BigEndian(n / 256, k - 1) + [n % 256]
  }

  function FromBigEndian(s: bytes): (n: nat) {
    if s == [] then 0 else 256 * FromBigEndian(s[..|s| - 1]) + s[|s| - 1]
  }

  lemma {:induction false} BigEndianRoundTrip(n: nat, k: nat)
    requires n < Pow256(k)
    ensures FromBigEndian(BigEndian(n, k)) == n
  {
    if k > 0 {
      var s := BigEndian(n, k);
      assert s[..k - 1] == BigEndian(n / 256, k - 1);
      BigEndianRoundTrip(n / 256, k - 1);
    }
  }

  lemma Pow256Of8()
    ensures Pow256(8) == TWO_64
  {
    assert Pow256(4) == 0x1_0000_0000;
  }

  /** What writing an int64 in big-endian order emits; `n` wraps to 64 bits as a Go conversion does. */
  function PutInt64(n: int): (s: bytes)
    ensures |s| == 8
  {
    BigEndian(n % TWO_64, INT64_SIZE)
  }

  /** The signed value of eight big-endian bytes. */
  function GetInt64(s: bytes): (n: int)
    requires |s| == 8
  {
    var u := FromBigEndian(s);
    if u < TWO_63 then u else u - TWO_64
  }

  lemma Int64RoundTrip(n: int)
    requires -TWO_63 <= n < TWO_63
    ensures GetInt64(PutInt64(n)) == n
  {
    Pow256Of8();
    BigEndianRoundTrip(n % TWO_64, 8);
  }

  /** Any bytes are the encoding of the number they stand for. */
  lemma {:induction false} BigEndianOnto(s: bytes)
    ensures FromBigEndian(s) < Pow256(|s|)
    ensures BigEndian(FromBigEndian(s), |s|) == s
  {
    if s != [] {
      var front, last := s[..|s| - 1], s[|s| - 1];
      BigEndianOnto(front);
      assert FromBigEndian(s) / 256 == FromBigEndian(front) && FromBigEndian(s) % 256 == last;
      assert front + [last] == s;
    }
  }

  lemma Int64Onto(s: bytes)
    requires |s| == 8
    ensures -TWO_63 <= GetInt64(s) < TWO_63 && PutInt64(GetInt64(s)) == s
  {
    Pow256Of8();
    BigEndianOnto(s);
    assert GetInt64(s) % TWO_64 == FromBigEndian(s);
  }

  lemma {:induction false} BigEndianZero(k: nat)
    ensures forall i :: 0 <= i < k ==> BigEndian(0, k)[i] == 0
  {
    if k > 0 { BigEndianZero(k - 1); }
  }

  lemma OneDigit(m: nat, k: nat)
    requires k >= 1 && m < 256
    ensures BigEndian(m, k) == BigEndian(0, k - 1) + [m]
  {
    assert m / 256 == 0 && m % 256 == m;
  }

  lemma TwoDigits(n: nat, k: nat)
    requires k >= 2 && n < 65536
    ensures var s := BigEndian(n, k); s[k - 2] == n / 256 && s[k - 1] == n % 256
    ensures forall i :: 0 <= i < k - 2 ==> BigEndian(n, k)[i] == 0
  {
    OneDigit(n / 256, k - 1);
    BigEndianZero(k - 2);
  }

  lemma PutIsBigEndian(n: nat, k: nat)
    requires n < 65536 && k == INT64_SIZE
    ensures PutInt64(n) == BigEndian(n, k)
  {
    assert n % TWO_64 == n;
  }

  /** The most significant byte comes first. */
  lemma MostSignificantFirst(n: nat, k: nat)
    requires n < 65536 && k == INT64_SIZE
    ensures var s := PutInt64(n); s[k - 2] == n / 256 && s[k - 1] == n % 256
    ensures forall i :: 0 <= i < k - 2 ==> PutInt64(n)[i] == 0
  {
    PutIsBigEndian(n, k);
    TwoDigits(n, k);
  }

  /** A length that fits Go's signed 64-bit int. */
  predicate GoLength(n: int) { 0 <= n < TWO_63 }

  /** Splitting a concatenation at its seam. */
  lemma Seam<T>(a: seq<T>, b: seq<T>)
    ensures (a + b)[..|a|] == a && (a + b)[|a|..] == b
  {
  }

  lemma Assoc<T>(a: seq<T>, b: seq<T>, c: seq<T>)
    ensures a + b + c == a + (b + c)
  {
  }

  lemma EmptyLeft<T>(a: seq<T>)
    ensures [] + a == a
  {
  }

  lemma EmptyRight<T>(a: seq<T>)
    ensures a + [] == a
  {
  }

  /** The contract of a buffered writer: bytes reach the sink in order, all of them by Flush. */
  class BufWriter {
    const size: nat
    var sink: bytes
    var pending: bytes

    ghost function Contents(): bytes
      reads this
    {
      sink + pending
    }

    constructor (size: nat)
      ensures this.size == size && sink == [] && pending == [] && Contents() == []
    {
      this.size := size;
      sink, pending := [], [];
    }

    method Write(p: bytes)
      modifies this
      ensures Contents() == old(Contents()) + p
      ensures old(sink) <= sink
    {
      if |pending| + |p| > size {
        sink := sink + pending + p;
        pending := [];
      } else {
        pending := pending + p;
      }
    }

    method Flush()
      modifies this
      ensures sink == old(Contents()) && pending == []
      ensures Contents() == old(Contents())
    {
      sink, pending := sink + pending, [];
    }
  }
}
