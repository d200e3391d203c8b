/** The 64-bit destination bitmap: hashing an address to a bit (bpf/anlf.c:63-69, 93-98) and the
    `CountBits` loop (pkg/ebpf/manager.go:219-226). */
module Bitmap {

  /** A bucket number, 0 to 63. */
  type bucket = b: bv64 | b < 64

  function BucketOf(ip: bv32): bucket {
    var h := ip ^ (ip >> 16);
    var g := h ^ (h >> 8);
    (g & 0x3F) as bv64
  }

  /** The bucket depends on the exclusive-or of the four address bytes only, so it is the same
      whichever byte order the address is loaded in. */
  lemma BucketIsXorOfBytes(ip: bv32)
    ensures BucketOf(ip) == ((ip ^ (ip >> 8) ^ (ip >> 16) ^ (ip >> 24)) & 0x3F) as bv64
  {
  }

  predicate Bit(n: bv64, b: bucket) {
    (n >> b) & 1 == 1
  }

  function With(n: bv64, b: bucket): bv64 {
    n | (1 << b)
  }

  function Half(n: bv64): bv64 {
    n >> 1
  }

  predicate Odd(n: bv64) {
    n & 1 == 1
  }

  /** The number of ones. */
  function Pop(n: bv64): nat
    decreases n
  {
    if n == 0 then 0 else
      HalfShrinks(n);
      (if Odd(n) then 1 else 0) + Pop(Half(n))
  }

  lemma HalfShrinks(n: bv64)
    requires n != 0
    ensures Half(n) < n
  {
  }

  method CountBits(bitmap: bv64) returns (count: nat)
    ensures count == Pop(bitmap)
  {
    count := 0;
    var rest := bitmap;
    while rest > 0
      invariant count + Pop(rest) == Pop(bitmap)
      decreases rest
    {
      hide Half, Odd;
      HalfShrinks(rest);
      count := count + (if Odd(rest) then 1 else 0);
      rest := Half(rest);
    }
  }

  lemma SetIsFresh(n: bv64, b: bucket)
    ensures Bit(With(n, b), b)
  {
  }

  lemma SetKeepsOthers(n: bv64, b: bucket, c: bucket)
    requires c != b
    ensures Bit(With(n, b), c) == Bit(n, c)
  {
  }

  lemma SetIsNonzero(n: bv64, b: bucket)
    ensures With(n, b) != 0
  {
    SetIsFresh(n, b);
  }

  lemma SetLowest(n: bv64)
    ensures Odd(With(n, 0)) && Half(With(n, 0)) == Half(n) && (Bit(n, 0) <==> Odd(n))
  {
  }

  lemma HalfOfSet(n: bv64, b: bucket)
    requires b != 0
    ensures Half(With(n, b)) == With(Half(n), b - 1)
  {
  }

  lemma SetKeepsLowest(n: bv64, b: bucket)
    requires b != 0
    ensures Odd(With(n, b)) == Odd(n)
  {
    SetKeepsOthers(n, b, 0);
  }

  lemma BitOfHalf(n: bv64, b: bucket)
    requires b != 0
    ensures Bit(Half(n), b - 1) == Bit(n, b)
  {
  }

  lemma PopUnfold(n: bv64)
    ensures Pop(n) == (if Odd(n) then 1 else 0) + Pop(Half(n))
  {
  }

  lemma Lower(b: bucket)
    requires b != 0
    ensures b - 1 < b
  {
  }

  lemma {:induction false} PopOfSet(n: bv64, b: bucket)
    ensures Pop(With(n, b)) == Pop(n) + (if Bit(n, b) then 0 else 1)
    decreases b
  {
    hide *;
    PopUnfold(n);
    PopUnfold(With(n, b));
    if b == 0 {
      SetLowest(n);
    } else {
      HalfOfSet(n, b);
      SetKeepsLowest(n, b);
      BitOfHalf(n, b);
      Lower(b);
      PopOfSet(Half(n), b - 1);
    }
  }

  // ---------------------------------------------------------------- the bitmap of a run of packets

  /** The bitmap after ORing in a bit for each bucket, starting from zero. */
  function Marked(seen: seq<bucket>): bv64 {
    if seen == [] then 0 else With(Marked(seen[..|seen| - 1]), seen[|seen| - 1])
  }

  lemma ZeroHasNoBit(b: bucket)
    ensures !Bit(0, b)
  {
  }

  lemma {:induction false} BitOfMarked(seen: seq<bucket>, b: bucket)
    ensures Bit(Marked(seen), b) <==> b in seen
  {
    hide Bit, With;
    if seen == [] {
      ZeroHasNoBit(b);
    } else {
      var front, last := seen[..|seen| - 1], seen[|seen| - 1];
      assert seen == front + [last];
      BitOfMarked(front, b);
      if b == last {
        SetIsFresh(Marked(front), b);
      } else {
        SetKeepsOthers(Marked(front), last, b);
      }
    }
  }

  ghost function Distinct<T>(s: seq<T>): set<T> {
    set x | x in s
  }

  lemma DistinctOfSnoc<T>(s: seq<T>, x: T)
    ensures Distinct(s + [x]) == Distinct(s) + {x}
  {
  }

  /** The number of ones is the number of distinct buckets, and so never more than 64, the number of
      packets, or (see FanOutIsBounded) the number of distinct destinations. */
  lemma {:induction false} PopIsDistinctBuckets(seen: seq<bucket>)
    ensures Pop(Marked(seen)) == |Distinct(seen)| <= |seen|
  {
    if seen != [] {
      hide Bit, With, Pop;
      var front, last := seen[..|seen| - 1], seen[|seen| - 1];
      assert seen == front + [last];
      PopIsDistinctBuckets(front);
      BitOfMarked(front, last);
      PopOfSet(Marked(front), last);
      DistinctOfSnoc(front, last);
    } else {
      assert Distinct(seen) == {};
    }
  }

  function Buckets(ips: seq<bv32>): seq<bucket> {
    if ips == [] then [] else Buckets(ips[..|ips| - 1]) + [BucketOf(ips[|ips| - 1])]
  }

  lemma {:induction false} BucketsOfSnoc(ips: seq<bv32>, ip: bv32)
    ensures Buckets(ips + [ip]) == Buckets(ips) + [BucketOf(ip)]
  {
    assert (ips + [ip])[..|ips|] == ips;
  }

  lemma {:induction false} BucketsContain(ips: seq<bv32>, ip: bv32)
    requires ip in ips
    ensures BucketOf(ip) in Buckets(ips)
  {
    hide BucketOf;
    if ip != ips[|ips| - 1] {
      assert ips == ips[..|ips| - 1] + [ips[|ips| - 1]];
      BucketsContain(ips[..|ips| - 1], ip);
    }
  }

  lemma {:induction false} FewerBucketsThanAddresses(ips: seq<bv32>)
    ensures |Distinct(Buckets(ips))| <= |Distinct(ips)|
  {
    hide BucketOf;
    if ips == [] {
      assert Distinct(Buckets(ips)) == {};
    } else {
      var front, last := ips[..|ips| - 1], ips[|ips| - 1];
      assert ips == front + [last];
      FewerBucketsThanAddresses(front);
      DistinctOfSnoc(front, last);
      DistinctOfSnoc(Buckets(front), BucketOf(last));
      if last in front {
        BucketsContain(front, last);
        assert Distinct(front) + {last} == Distinct(front);
        assert Distinct(Buckets(front)) + {BucketOf(last)} == Distinct(Buckets(front));
      } else {
        assert last !in Distinct(front);
      }
    }
  }

  lemma PopStep(n: bv64)
    ensures Pop(n) <= 1 + Pop(n >> 1)
  {
    PopUnfold(n);
  }

  lemma ShiftTwice(n: bv64)
    ensures (n >> 1) >> 1 == n >> 2 && (n >> 2) >> 2 == n >> 4 && (n >> 4) >> 4 == n >> 8
    ensures (n >> 8) >> 8 == n >> 16 && (n >> 16) >> 16 == n >> 32 && (n >> 32) >> 32 == 0
  {
  }

  lemma PopOfByteShift(n: bv64)
    ensures Pop(n) <= 8 + Pop(n >> 8)
  {
    hide Pop;
    PopOfNibbleShift(n);
    PopOfNibbleShift(n >> 4);
    ShiftTwice(n);
  }

  lemma PopOfNibbleShift(n: bv64)
    ensures Pop(n) <= 4 + Pop(n >> 4)
  {
    hide Pop;
    PopOfPairShift(n);
    PopOfPairShift(n >> 2);
    ShiftTwice(n);
  }

  lemma PopOfPairShift(n: bv64)
    ensures Pop(n) <= 2 + Pop(n >> 2)
  {
    hide Pop;
    PopStep(n);
    PopStep(n >> 1);
    ShiftTwice(n);
  }

  lemma PopOfHalfWord(n: bv64)
    ensures Pop(n) <= 16 + Pop(n >> 16)
  {
    hide Pop;
    PopOfByteShift(n);
    PopOfByteShift(n >> 8);
    ShiftTwice(n);
  }

  lemma PopOfWord(n: bv64)
    ensures Pop(n) <= 32 + Pop(n >> 32)
  {
    hide Pop;
    PopOfHalfWord(n);
    PopOfHalfWord(n >> 16);
    ShiftTwice(n);
  }

  lemma PopOfZero()
    ensures Pop(0) == 0
  {
  }

  lemma PopAtMost64(n: bv64)
    ensures Pop(n) <= 64
  {
    hide Pop;
    PopOfWord(n);
    PopOfWord(n >> 32);
    ShiftTwice(n);
    PopOfZero();
  }

  /** Fan-out exactness: the ones counted by `CountBits` after a run of packets are the distinct
      buckets of their destinations; a bucket may stand for several destinations, never the other
      way round. */
  lemma FanOutIsBounded(ips: seq<bv32>)
    ensures Pop(Marked(Buckets(ips))) == |Distinct(Buckets(ips))|
    ensures Pop(Marked(Buckets(ips))) <= 64 && Pop(Marked(Buckets(ips))) <= |Distinct(ips)| <= |ips|
    ensures forall ip | ip in ips :: Bit(Marked(Buckets(ips)), BucketOf(ip))
    ensures ips == [] <==> Marked(Buckets(ips)) == 0
  {
    hide Pop, Bit, With, BucketOf;
    PopIsDistinctBuckets(Buckets(ips));
    PopAtMost64(Marked(Buckets(ips)));
    FewerBucketsThanAddresses(ips);
    AtMostAsMany(ips);
    forall ip | ip in ips ensures Bit(Marked(Buckets(ips)), BucketOf(ip)) {
      BucketsContain(ips, ip);
      BitOfMarked(Buckets(ips), BucketOf(ip));
    }
    if ips != [] {
      SetIsNonzero(Marked(Buckets(ips[..|ips| - 1])), BucketOf(ips[|ips| - 1]));
    }
  }

  lemma {:induction false} AtMostAsMany<T>(s: seq<T>)
    ensures |Distinct(s)| <= |s|
  {
    if s == [] {
      assert Distinct(s) == {};
    } else {
      AtMostAsMany(s[..|s| - 1]);
      assert s == s[..|s| - 1] + [s[|s| - 1]];
      DistinctOfSnoc(s[..|s| - 1], s[|s| - 1]);
    }
  }

  /** Two addresses in one bucket: the count can be below the number of distinct destinations. */
  lemma DistinctAddressesMayCollide()
    ensures BucketOf(0) == BucketOf(0x4000_0000) && Pop(Marked(Buckets([0, 0x4000_0000]))) == 1
  {
    var ips: seq<bv32> := [0, 0x4000_0000];
    var none: seq<bv32> := [];
    assert ips == [0] + [0x4000_0000] && none + [0] == [0];
    BucketsOfSnoc([0], 0x4000_0000);
    BucketsOfSnoc(none, 0);
    assert BucketOf(0) == 0 == BucketOf(0x4000_0000);
    PopIsDistinctBuckets(Buckets(ips));
    assert Distinct(Buckets(ips)) == {0};
  }
}
