/** The two in-place exchange sorts: `getTop3` (pkg/ebpf/manager.go:309-324) and
    `sortResultsBySUPI` (internal/analyzer/detector/anomaly_detector.go:307-316). */
module ExchangeSort {

  method Swap<T>(a: array<T>, i: nat, j: nat)
    requires i < j < a.Length
    modifies a
    ensures a[..] == old(a[..])[i := old(a[j])][j := old(a[i])]
    ensures multiset(a[..]) == multiset(old(a[..]))
  {
    a[i], a[j] := a[j], a[i];
  }

  // ---------------------------------------------------------------- top three by bytes

  datatype TopStat = TopStat(key: nat, bytes: nat)

  ghost predicate Descending(s: seq<TopStat>) {
    forall i, j | 0 <= i < j < |s| :: s[i].bytes >= s[j].bytes
  }

  /** The head of the sequence is in its final place. */
  ghost predicate HeadPlaced(s: seq<TopStat>, i: nat) {
    forall p, q | 0 <= p < i && p < q < |s| :: s[p].bytes >= s[q].bytes
  }

  /** The three largest entries, or all of them: the rest of the array holds nothing larger. */
  method GetTop3(stats: array<TopStat>) returns (top: seq<TopStat>)
    modifies stats
    ensures multiset(stats[..]) == multiset(old(stats[..]))
    ensures Descending(stats[..]) && top == stats[..if stats.Length > 3 then 3 else stats.Length]
    ensures multiset(top) + multiset(stats[|top|..]) == multiset(old(stats[..]))
    ensures forall x, y | x in top && y in stats[|top|..] :: x.bytes >= y.bytes
  {
    var i := 0;
    while i < stats.Length
      invariant 0 <= i <= stats.Length
      invariant HeadPlaced(stats[..], i)
      invariant multiset(stats[..]) == multiset(old(stats[..]))
    {
      PlaceLargest(stats, i);
      i := i + 1;
    }
    top := if stats.Length > 3 then stats[..3] else stats[..];
    assert stats[..] == stats[..|top|] + stats[|top|..];
  }

  /** The inner loop: afterwards position i holds the largest entry from i on. */
  method PlaceLargest(stats: array<TopStat>, i: nat)
    requires i < stats.Length && HeadPlaced(stats[..], i)
    modifies stats
    ensures HeadPlaced(stats[..], i + 1)
    ensures multiset(stats[..]) == multiset(old(stats[..]))
  {
    var j := i + 1;
    while j < stats.Length
      invariant i < j <= stats.Length
      invariant HeadPlaced(stats[..], i) && LargestBelow(stats[..], i, j)
      invariant multiset(stats[..]) == multiset(old(stats[..]))
    {
      hide HeadPlaced, LargestBelow;
      ghost var before := stats[..];
      if stats[j].bytes > stats[i].bytes {
        Swap(stats, i, j);
      }
      ExchangeKeeps(before, stats[..], i, j);
      j := j + 1;
    }
    HeadGrows(stats[..], i);
  }

  /** The entry at i is the largest of those from i to j-1. */
  ghost predicate LargestBelow(s: seq<TopStat>, i: nat, j: nat)
    requires i < |s|
  {
    forall q | i < q < j && q < |s| :: s[i].bytes >= s[q].bytes
  }

  lemma ExchangeKeeps(s: seq<TopStat>, t: seq<TopStat>, i: nat, j: nat)
    requires i < j < |s| && HeadPlaced(s, i) && LargestBelow(s, i, j)
    requires t == if s[j].bytes > s[i].bytes then s[i := s[j]][j := s[i]] else s
    ensures HeadPlaced(t, i) && LargestBelow(t, i, j + 1)
  {
  }

  lemma HeadGrows(s: seq<TopStat>, i: nat)
    requires i < |s| && HeadPlaced(s, i) && LargestBelow(s, i, |s|)
    ensures HeadPlaced(s, i + 1)
  {
  }

  // ---------------------------------------------------------------- results by SUPI

  datatype Scored = Scored(supi: string, score: real)

  /** Go's order on strings: bytewise, a prefix first. */
  predicate AtMost(a: string, b: string) {
    a == "" || (b != "" && (a[0] < b[0] || (a[0] == b[0] && AtMost(a[1..], b[1..]))))
  }

  lemma {:induction false} AtMostTotal(a: string, b: string)
    ensures AtMost(a, b) || AtMost(b, a)
    ensures AtMost(a, b) && AtMost(b, a) ==> a == b
  {
    if a != "" && b != "" {
      AtMostTotal(a[1..], b[1..]);
      assert a == [a[0]] + a[1..] && b == [b[0]] + b[1..];
    }
  }

  lemma {:induction false} AtMostTransitive(a: string, b: string, c: string)
    requires AtMost(a, b) && AtMost(b, c)
    ensures AtMost(a, c)
  {
    if a != "" && a[0] == b[0] && b[0] == c[0] {
      AtMostTransitive(a[1..], b[1..], c[1..]);
    }
  }

  /** It is the lexicographic order: a is a prefix of b, or smaller at the first place they differ. */
  lemma {:induction false} AtMostIsLexicographic(a: string, b: string)
    ensures AtMost(a, b) <==> a <= b || exists i :: DiffersAt(a, b, i)
  {
    if a == "" {
      assert a <= b;
    } else if b != "" && a[0] == b[0] {
      AtMostIsLexicographic(a[1..], b[1..]);
      assert a == [a[0]] + a[1..] && b == [b[0]] + b[1..];
      if i: nat :| DiffersAt(a[1..], b[1..], i) {
        assert a[..i + 1] == [a[0]] + a[1..][..i] && b[..i + 1] == [b[0]] + b[1..][..i];
        assert DiffersAt(a, b, i + 1);
      }
      if i: nat :| DiffersAt(a, b, i) {
        assert i > 0;
        assert a[1..][..i - 1] == a[..i][1..] && b[1..][..i - 1] == b[..i][1..];
        assert DiffersAt(a[1..], b[1..], i - 1);
      }
    } else if b != "" {
      assert DiffersAt(a, b, 0) <==> a[0] < b[0];
      forall i: nat ensures DiffersAt(a, b, i) ==> i == 0 {
        FirstDiffers(a, b, i);
      }
    }
  }

  lemma FirstDiffers(a: string, b: string, i: nat)
    requires a != "" && b != "" && a[0] != b[0]
    ensures DiffersAt(a, b, i) ==> i == 0
  {
    if 0 < i < |a| && i < |b| {
      assert a[..i][0] == a[0] && b[..i][0] == b[0];
    }
  }

  /** The same up to i, and smaller there. */
  ghost predicate DiffersAt(a: string, b: string, i: nat) {
    i < |a| && i < |b| && a[..i] == b[..i] && a[i] < b[i]
  }

  ghost predicate BySupi(s: seq<Scored>) {
    forall i, j | 0 <= i < j < |s| :: AtMost(s[i].supi, s[j].supi)
  }

  ghost predicate SupiHeadPlaced(s: seq<Scored>, i: nat) {
    forall p, q | 0 <= p < i && p < q < |s| :: AtMost(s[p].supi, s[q].supi)
  }

  method SortResultsBySUPI(results: array<Scored>)
    modifies results
    ensures BySupi(results[..]) && multiset(results[..]) == multiset(old(results[..]))
  {
    var i := 0;
    while i < results.Length - 1
      invariant 0 <= i <= results.Length
      invariant SupiHeadPlaced(results[..], i)
      invariant multiset(results[..]) == multiset(old(results[..]))
    {
      PlaceSmallestSupi(results, i);
      i := i + 1;
    }
  }

  method PlaceSmallestSupi(results: array<Scored>, i: nat)
    requires i < results.Length && SupiHeadPlaced(results[..], i)
    modifies results
    ensures SupiHeadPlaced(results[..], i + 1)
    ensures multiset(results[..]) == multiset(old(results[..]))
  {
    var j := i + 1;
    while j < results.Length
      invariant i < j <= results.Length
      invariant SupiHeadPlaced(results[..], i) && SmallestBelow(results[..], i, j)
      invariant multiset(results[..]) == multiset(old(results[..]))
    {
      hide SupiHeadPlaced, SmallestBelow, AtMost;
      ghost var before := results[..];
      if !AtMost(results[i].supi, results[j].supi) {
        Swap(results, i, j);
      }
      SupiExchangeKeeps(before, results[..], i, j);
      j := j + 1;
    }
    SupiHeadGrows(results[..], i);
  }

  /** The result at i has the smallest SUPI of those from i to j-1. */
  ghost predicate SmallestBelow(s: seq<Scored>, i: nat, j: nat)
    requires i < |s|
  {
    forall q | i < q < j && q < |s| :: AtMost(s[i].supi, s[q].supi)
  }

  lemma SupiExchangeKeeps(s: seq<Scored>, t: seq<Scored>, i: nat, j: nat)
    requires i < j < |s| && SupiHeadPlaced(s, i) && SmallestBelow(s, i, j)
    requires t == if AtMost(s[i].supi, s[j].supi) then s else s[i := s[j]][j := s[i]]
    ensures SupiHeadPlaced(t, i) && SmallestBelow(t, i, j + 1)
  {
    hide AtMost;
    AtMostTotal(s[i].supi, s[j].supi);
    if !AtMost(s[i].supi, s[j].supi) {
      forall q | i < q < j ensures AtMost(s[j].supi, s[q].supi) {
        AtMostTransitive(s[j].supi, s[i].supi, s[q].supi);
      }
    }
  }

  lemma SupiHeadGrows(s: seq<Scored>, i: nat)
    requires i < |s| && SupiHeadPlaced(s, i) && SmallestBelow(s, i, |s|)
    ensures SupiHeadPlaced(s, i + 1)
  {
    hide AtMost;
  }

  ghost predicate DistinctSupis(s: seq<Scored>) {
    forall i, j | 0 <= i < j < |s| :: s[i].supi != s[j].supi
  }

  /** With distinct SUPIs the sorted order is determined by the results alone. */
  lemma {:induction false} SortedOrderIsUnique(s: seq<Scored>, t: seq<Scored>)
    requires BySupi(s) && BySupi(t) && DistinctSupis(s) && multiset(s) == multiset(t)
    ensures s == t
    decreases |s|
  {
    SameSize(s, t);
    if s != [] {
      FirstsAgree(s, t);
      TailsAgree(s, t);
      SortedTail(s);
      SortedTail(t);
      hide BySupi, DistinctSupis;
      SortedOrderIsUnique(s[1..], t[1..]);
      assert s == [s[0]] + s[1..] && t == [t[0]] + t[1..];
    }
  }

  lemma SortedTail(s: seq<Scored>)
    requires s != [] && BySupi(s)
    ensures BySupi(s[1..]) && (DistinctSupis(s) ==> DistinctSupis(s[1..]))
  {
    hide AtMost;
  }

  lemma TailsAgree<T>(s: seq<T>, t: seq<T>)
    requires s != [] && t != [] && s[0] == t[0] && multiset(s) == multiset(t)
    ensures multiset(s[1..]) == multiset(t[1..])
  {
    assert s == [s[0]] + s[1..] && t == [t[0]] + t[1..];
    assert multiset(s[1..]) == multiset(s) - multiset{s[0]};
  }

  lemma SameSize<T>(s: seq<T>, t: seq<T>)
    requires multiset(s) == multiset(t)
    ensures |s| == |t|
  {
    assert |multiset(s)| == |s| && |multiset(t)| == |t|;
  }

  lemma FirstsAgree(s: seq<Scored>, t: seq<Scored>)
    requires BySupi(s) && BySupi(t) && DistinctSupis(s) && multiset(s) == multiset(t) && s != [] && t != []
    ensures s[0] == t[0]
  {
    assert t[0] in multiset(s) && s[0] in multiset(t);
    FirstIsLeast(s, t[0]);
    FirstIsLeast(t, s[0]);
    AtMostTotal(s[0].supi, t[0].supi);
    var i :| 0 <= i < |s| && s[i] == t[0];
    assert s[i].supi == s[0].supi;
  }

  lemma FirstIsLeast(s: seq<Scored>, x: Scored)
    requires BySupi(s) && x in s
    ensures AtMost(s[0].supi, x.supi)
  {
    AtMostTotal(s[0].supi, s[0].supi);
  }
}
