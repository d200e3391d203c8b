/** `ReadAndReset` (pkg/ebpf/manager.go:123-156): read every entry of the UE map, then delete the
    keys that were read, while packets keep landing. The accounting is per key and for any one
    additive counter: a packet adds `n` to it (1 for a packet count, its length for bytes). */
module Snapshot {
  import opened MapTotals

  class Manager<K(==)> {
    var ueMetrics: map<K, nat>

    /** With no packet landing meanwhile the read is exact. The interleaved read is below. */
    method ReadAndReset() returns (metrics: map<K, nat>)
      modifies this
      ensures metrics == old(ueMetrics) && ueMetrics == map[]
    {
      metrics := map[];
      var keys := [];
      var unvisited := ueMetrics.Keys;
      while unvisited != {}
        invariant unvisited <= ueMetrics.Keys && ueMetrics == old(ueMetrics)
        invariant metrics == map k | k in ueMetrics && k !in unvisited :: ueMetrics[k]
        invariant forall k :: k in keys <==> k in metrics
        decreases |unvisited|
      {
        var key :| key in unvisited;
        metrics := metrics[key := ueMetrics[key]];
        keys := keys + [key];
        unvisited := unvisited - {key};
      }
      DeleteKeys(keys);
    }

    method DeleteKeys(keys: seq<K>)
      modifies this
      ensures ueMetrics == map k | k in old(ueMetrics) && k !in keys :: old(ueMetrics)[k]
    {
      var i := 0;
      while i < |keys|
        invariant 0 <= i <= |keys|
        invariant ueMetrics == map k | k in old(ueMetrics) && k !in keys[..i] :: old(ueMetrics)[k]
      {
        ueMetrics := ueMetrics - {keys[i]};
        i := i + 1;
      }
    }
  }

  // ---------------------------------------------------------------- the interleaved read

  datatype Phase = Idle | Visiting | Deleting

  /** `seen` is the map being filled, `todo` the keys still to delete, `deleted` those deleted at
      least once in this read. The rest are histories: the windows returned so far, and per key what
      arrived, what a full map refused, what has landed since the key was last read or deleted, and
      what deletions threw away of that. */
  datatype State<K> = State(
    resident: map<K, nat>, phase: Phase, seen: map<K, nat>, todo: seq<K>, deleted: set<K>,
    windows: seq<map<K, nat>>, arrived: map<K, nat>, refused: map<K, nat>, since: map<K, nat>, lost: map<K, nat>)

  datatype Event<K> =
    | Packet(k: K, n: nat)
    | Begin
    | Visit(v: K)   // the iterator yields a key, possibly one it has yielded before
    | EndVisits     // the iterator is done, having skipped keys or not
    | Fail          // the iterator reports an error: nothing is returned or deleted
    | Delete        // the next key
    | Finish        // the collected map is returned

  ghost function Start<K(!new)>(m: map<K, nat>): State<K> {
    State(m, Idle, map[], [], {}, [], m, map[], map[], map[])
  }

  ghost predicate Enabled<K(!new)>(s: State<K>, e: Event<K>) {
    match e
    case Packet(_, _) => true
    case Begin => s.phase == Idle
    case Visit(k) => s.phase == Visiting && k in s.resident
    case EndVisits => s.phase == Visiting
    case Fail => s.phase == Visiting
    case Delete => s.phase == Deleting && s.todo != []
    case Finish => s.phase == Deleting && s.todo == []
  }

  ghost predicate Stored<K(!new)>(cap: nat, s: State<K>, k: K) {
    k in s.resident || |s.resident| < cap
  }

  ghost function Next<K(!new)>(cap: nat, s: State<K>, e: Event<K>): State<K>
    requires Enabled(s, e)
  {
    match e
    case Packet(k, n) =>
      if Stored(cap, s, k) then
        s.(resident := Plus(s.resident, k, n), arrived := Plus(s.arrived, k, n), since := Plus(s.since, k, n))
      else s.(arrived := Plus(s.arrived, k, n), refused := Plus(s.refused, k, n))
    case Begin => s.(phase := Visiting)
    case Visit(k) => s.(seen := s.seen[k := s.resident[k]], todo := s.todo + [k], since := s.since[k := 0])
    case EndVisits => s.(phase := Deleting)
    case Fail => s.(phase := Idle, seen := map[], todo := [])
    case Delete =>
      var k := s.todo[0];
      s.(resident := s.resident - {k}, todo := s.todo[1..], deleted := s.deleted + {k},
         lost := Plus(s.lost, k, Got(s.since, k)), since := s.since[k := 0])
    case Finish => s.(phase := Idle, seen := map[], deleted := {}, windows := s.windows + [s.seen])
  }

  ghost predicate Legal<K(!new)>(cap: nat, s: State<K>, es: seq<Event<K>>)
    decreases |es|
  {
    es == [] || (Enabled(s, es[0]) && Legal(cap, Next(cap, s, es[0]), es[1..]))
  }

  ghost function Run<K(!new)>(cap: nat, s: State<K>, es: seq<Event<K>>): State<K>
    requires Legal(cap, s, es)
    decreases |es|
  {
    if es == [] then s else Run(cap, Next(cap, s, es[0]), es[1..])
  }

  // ---------------------------------------------------------------- accounting for one key

  /** What all windows returned so far report for a key. */
  ghost function Reported<K(!new)>(windows: seq<map<K, nat>>, k: K): nat {
    if windows == [] then 0 else Reported(windows[..|windows| - 1], k) + Got(windows[|windows| - 1], k)
  }

  /** What is read and already deleted, but not returned yet. */
  ghost function InHand<K(!new)>(s: State<K>, k: K): nat {
    if k in s.deleted then Got(s.seen, k) else 0
  }

  ghost predicate Balanced<K(!new)>(s: State<K>, k: K) {
    Got(s.arrived, k) == Reported(s.windows, k) + InHand(s, k) + Got(s.resident, k) + Got(s.lost, k) + Got(s.refused, k)
  }

  /** How the reader's view of a key relates to the map. */
  ghost predicate Viewed<K(!new)>(s: State<K>, k: K) {
    && (k in s.todo ==> k in s.seen)
    && (k in s.deleted ==> k in s.seen)
    && (k in s.seen && k !in s.deleted ==> k in s.todo && k in s.resident && s.resident[k] == s.seen[k] + Got(s.since, k))
    && (k in s.deleted && k in s.todo ==> Got(s.resident, k) == Got(s.since, k))
  }

  ghost predicate Phased<K(!new)>(s: State<K>) {
    && (s.phase == Idle ==> s.seen == map[] && s.todo == [] && s.deleted == {})
    && (s.phase == Visiting ==> s.deleted == {})
  }

  lemma ReportedOfSnoc<K(!new)>(windows: seq<map<K, nat>>, w: map<K, nat>, k: K)
    ensures Reported(windows + [w], k) == Reported(windows, k) + Got(w, k)
  {
    assert (windows + [w])[..|windows|] == windows;
  }

  lemma StepPhased<K(!new)>(cap: nat, s: State<K>, e: Event<K>)
    requires Phased(s) && Enabled(s, e)
    ensures Phased(Next(cap, s, e))
  {
  }

  lemma PacketViewed<K(!new)>(cap: nat, s: State<K>, e: Event<K>, k: K)
    requires Viewed(s, k) && e.Packet?
    ensures Viewed(Next(cap, s, e), k)
  {
    hide Stored;
  }

  lemma DeleteViewed<K(!new)>(cap: nat, s: State<K>, k: K)
    requires Viewed(s, k) && Enabled(s, Delete)
    ensures Viewed(Next(cap, s, Delete), k)
  {
    assert s.todo == [s.todo[0]] + s.todo[1..];
  }

  lemma StepViewed<K(!new)>(cap: nat, s: State<K>, e: Event<K>, k: K)
    requires Phased(s) && Viewed(s, k) && Enabled(s, e)
    ensures Viewed(Next(cap, s, e), k)
  {
    match e
    case Packet(_, _) => PacketViewed(cap, s, e, k);
    case Delete => DeleteViewed(cap, s, k);
    case Begin =>
    case Visit(_) =>
    case EndVisits =>
    case Fail =>
    case Finish =>
  }

  lemma PacketBalanced<K(!new)>(cap: nat, s: State<K>, e: Event<K>, k: K)
    requires Balanced(s, k) && e.Packet?
    ensures Balanced(Next(cap, s, e), k)
  {
    var t := Next(cap, s, e);
    PacketFrame(cap, s, e);
    hide *;
    SameInHand(s, t, k);
    GotPlus(s.arrived, e.k, e.n, k);
    GotPlus(s.resident, e.k, e.n, k);
    GotPlus(s.refused, e.k, e.n, k);
    BalanceParts(s, k);
    BalanceParts(t, k);
  }

  lemma PacketFrame<K(!new)>(cap: nat, s: State<K>, e: Event<K>)
    requires e.Packet?
    ensures var t := Next(cap, s, e);
            && t.windows == s.windows && t.seen == s.seen && t.deleted == s.deleted && t.lost == s.lost
            && t.arrived == Plus(s.arrived, e.k, e.n)
            && t.resident == (if Stored(cap, s, e.k) then Plus(s.resident, e.k, e.n) else s.resident)
            && t.refused == if Stored(cap, s, e.k) then s.refused else Plus(s.refused, e.k, e.n)
  {
    hide Plus, Stored;
  }

  lemma SameInHand<K(!new)>(s: State<K>, t: State<K>, k: K)
    requires t.seen == s.seen && t.deleted == s.deleted
    ensures InHand(t, k) == InHand(s, k)
  {
  }

  lemma BalanceParts<K(!new)>(s: State<K>, k: K)
    ensures Balanced(s, k) <==>
            Got(s.arrived, k) == Reported(s.windows, k) + InHand(s, k) + Got(s.resident, k) + Got(s.lost, k) + Got(s.refused, k)
  {
  }

  lemma DeleteBalanced<K(!new)>(cap: nat, s: State<K>, k: K)
    requires Viewed(s, k) && Balanced(s, k) && Enabled(s, Delete)
    ensures Balanced(Next(cap, s, Delete), k)
  {
    hide Reported, Plus;
    assert s.todo[0] in s.todo;
    GotPlus(s.lost, s.todo[0], Got(s.since, s.todo[0]), k);
  }

  lemma FinishBalanced<K(!new)>(cap: nat, s: State<K>, k: K)
    requires Viewed(s, k) && Balanced(s, k) && Enabled(s, Finish)
    ensures Balanced(Next(cap, s, Finish), k)
  {
    hide Reported;
    ReportedOfSnoc(s.windows, s.seen, k);
  }

  lemma StepBalanced<K(!new)>(cap: nat, s: State<K>, e: Event<K>, k: K)
    requires Phased(s) && Viewed(s, k) && Balanced(s, k) && Enabled(s, e)
    ensures Balanced(Next(cap, s, e), k)
  {
    match e
    case Packet(_, _) => PacketBalanced(cap, s, e, k);
    case Delete => DeleteBalanced(cap, s, k);
    case Finish => FinishBalanced(cap, s, k);
    case Begin =>
    case Visit(_) =>
    case EndVisits =>
    case Fail =>
  }

  lemma {:induction false} RunBalanced<K(!new)>(cap: nat, s: State<K>, es: seq<Event<K>>, k: K)
    requires Phased(s) && Viewed(s, k) && Balanced(s, k) && Legal(cap, s, es)
    ensures var t := Run(cap, s, es); Phased(t) && Viewed(t, k) && Balanced(t, k)
    decreases |es|
  {
    if es != [] {
      hide Phased, Viewed, Balanced, Next, Enabled;
      StepPhased(cap, s, es[0]);
      StepViewed(cap, s, es[0], k);
      StepBalanced(cap, s, es[0], k);
      RunBalanced(cap, Next(cap, s, es[0]), es[1..], k);
    }
  }

  /** Window accounting: at any moment, everything that arrived for a key is reported in exactly one
      window, in the reader's hand, still in the map, refused by a full map, or was thrown away
      because it landed between the key's last read and its deletion. */
  lemma WindowAccounting<K(!new)>(cap: nat, m: map<K, nat>, es: seq<Event<K>>, k: K)
    requires Legal(cap, Start(m), es)
    ensures Balanced(Run(cap, Start(m), es), k)
    ensures Run(cap, Start(m), es).phase == Idle ==> InHand(Run(cap, Start(m), es), k) == 0
  {
    RunBalanced(cap, Start(m), es, k);
  }

  // ---------------------------------------------------------------- the gap

  ghost predicate Deletes<K(!new)>(s: State<K>, e: Event<K>, k: K) {
    e == Delete && s.todo != [] && s.todo[0] == k
  }

  /** Of the reads and deletions of the key still to come, the next one is a deletion. */
  ghost predicate DeletedNext<K(!new)>(cap: nat, s: State<K>, es: seq<Event<K>>, k: K)
    requires Legal(cap, s, es)
    decreases |es|
  {
    es != [] && es[0] != Visit(k) && (Deletes(s, es[0], k) || DeletedNext(cap, Next(cap, s, es[0]), es[1..], k))
  }

  /** What lands in the gaps of a key: after its last read or deletion and before a deletion. */
  ghost function InGaps<K(!new)>(cap: nat, s: State<K>, es: seq<Event<K>>, k: K): nat
    requires Legal(cap, s, es)
    decreases |es|
  {
    if es == [] then 0
    else
      var t, e := Next(cap, s, es[0]), es[0];
      InGaps(cap, t, es[1..], k)
      + if e.Packet? && e.k == k && Stored(cap, s, k) && DeletedNext(cap, t, es[1..], k) then e.n else 0
  }

  /** No packet of the key that adds anything lands in a gap. */
  ghost predicate GapFree<K(!new)>(cap: nat, s: State<K>, es: seq<Event<K>>, k: K)
    requires Legal(cap, s, es)
    decreases |es|
  {
    es == []
    || var t, e := Next(cap, s, es[0]), es[0];
       && !(e.Packet? && e.k == k && e.n > 0 && Stored(cap, s, k) && DeletedNext(cap, t, es[1..], k))
       && GapFree(cap, t, es[1..], k)
  }

  /** What one step adds to the losses, and what is left to lose. */
  lemma StepLost<K(!new)>(cap: nat, s: State<K>, e: Event<K>, k: K)
    requires Enabled(s, e)
    ensures var t := Next(cap, s, e);
            && Got(t.lost, k) == Got(s.lost, k) + (if Deletes(s, e, k) then Got(s.since, k) else 0)
            && Got(t.since, k) == (if e == Visit(k) || Deletes(s, e, k) then 0
                                   else Got(s.since, k) + if e.Packet? && e.k == k && Stored(cap, s, k) then e.n else 0)
  {
    match e
    case Packet(_, _) => PacketLost(cap, s, e, k);
    case Delete => DeleteLost(cap, s, k);
    case Begin =>
    case Visit(_) =>
    case EndVisits =>
    case Fail =>
    case Finish =>
  }

  lemma PacketLost<K(!new)>(cap: nat, s: State<K>, e: Event<K>, k: K)
    requires e.Packet?
    ensures var t := Next(cap, s, e);
            && t.lost == s.lost
            && Got(t.since, k) == Got(s.since, k) + if e.k == k && Stored(cap, s, k) then e.n else 0
  {
    hide Got, Plus, Stored;
    GotPlus(s.since, e.k, e.n, k);
  }

  lemma DeleteLost<K(!new)>(cap: nat, s: State<K>, k: K)
    requires Enabled(s, Delete)
    ensures var t := Next(cap, s, Delete);
            && Got(t.lost, k) == Got(s.lost, k) + (if s.todo[0] == k then Got(s.since, k) else 0)
            && Got(t.since, k) == if s.todo[0] == k then 0 else Got(s.since, k)
  {
    hide Plus;
    GotPlus(s.lost, s.todo[0], Got(s.since, s.todo[0]), k);
  }

  lemma {:induction false} LostSoFar<K(!new)>(cap: nat, s: State<K>, es: seq<Event<K>>, k: K)
    requires Legal(cap, s, es)
    ensures Got(Run(cap, s, es).lost, k)
         == Got(s.lost, k) + (if DeletedNext(cap, s, es, k) then Got(s.since, k) else 0) + InGaps(cap, s, es, k)
    decreases |es|
  {
    if es != [] {
      StepLost(cap, s, es[0], k);
      DeletionIsNoPacket(s, es[0], k);
      hide Next, Enabled, Stored, Deletes, Got;
      LostSoFar(cap, Next(cap, s, es[0]), es[1..], k);
    }
  }

  lemma DeletionIsNoPacket<K(!new)>(s: State<K>, e: Event<K>, k: K)
    ensures Deletes(s, e, k) ==> !e.Packet? && e != Visit(k)
  {
  }

  lemma {:induction false} GapFreeExactly<K(!new)>(cap: nat, s: State<K>, es: seq<Event<K>>, k: K)
    requires Legal(cap, s, es)
    ensures GapFree(cap, s, es, k) <==> InGaps(cap, s, es, k) == 0
    decreases |es|
  {
    if es != [] {
      hide Next, Enabled, Stored, DeletedNext;
      GapFreeExactly(cap, Next(cap, s, es[0]), es[1..], k);
    }
  }

  /** What is lost of a key is exactly what landed in its gaps. */
  lemma LostExactly<K(!new)>(cap: nat, m: map<K, nat>, es: seq<Event<K>>, k: K)
    requires Legal(cap, Start(m), es)
    ensures Got(Run(cap, Start(m), es).lost, k) == InGaps(cap, Start(m), es, k)
  {
    LostSoFar(cap, Start(m), es, k);
  }

  /** Between reads a UE's accounts balance without a loss, reported + resident (+ refused) = arrived,
      if and only if no packet of it landed in a gap. */
  lemma NoGapNoLoss<K(!new)>(cap: nat, m: map<K, nat>, es: seq<Event<K>>, k: K)
    requires Legal(cap, Start(m), es) && Run(cap, Start(m), es).phase == Idle
    ensures var s := Run(cap, Start(m), es);
            && (GapFree(cap, Start(m), es, k)
                <==> Got(s.arrived, k) == Reported(s.windows, k) + Got(s.resident, k) + Got(s.refused, k))
  {
    hide Reported, InGaps, GapFree;
    WindowAccounting(cap, m, es, k);
    LostExactly(cap, m, es, k);
    GapFreeExactly(cap, Start(m), es, k);
  }

  /** A packet between two visits of its key is not lost: the second visit reads it. */
  lemma RevisitKeeps<K(!new)>(k: K, n: nat)
    requires n > 0
    ensures var es := [Begin, Visit(k), Packet(k, n), Visit(k), EndVisits, Delete, Delete, Finish];
            && Legal(1, Start(map[k := 1]), es)
            && Got(Run(1, Start(map[k := 1]), es).lost, k) == 0
  {
    var s0 := Start(map[k := 1]);
    var s1 := Next(1, s0, Begin);
    var s2 := Next(1, s1, Visit(k));
    var s3 := Next(1, s2, Packet(k, n));
    var s4 := Next(1, s3, Visit(k));
    var s5 := Next(1, s4, EndVisits);
    var s6 := Next(1, s5, Delete);
    var s7 := Next(1, s6, Delete);
    var rest := [EndVisits, Delete, Delete, Finish];
    RunCons(1, s7, Finish, []);
    RunCons(1, s6, Delete, [Finish]);
    RunCons(1, s5, Delete, [Delete, Finish]);
    RunCons(1, s4, EndVisits, [Delete, Delete, Finish]);
    RunCons(1, s3, Visit(k), rest);
    RunCons(1, s2, Packet(k, n), [Visit(k)] + rest);
    RunCons(1, s1, Visit(k), [Packet(k, n)] + ([Visit(k)] + rest));
    RunCons(1, s0, Begin, [Visit(k)] + ([Packet(k, n)] + ([Visit(k)] + rest)));
    assert [Begin] + ([Visit(k)] + ([Packet(k, n)] + ([Visit(k)] + rest)))
        == [Begin, Visit(k), Packet(k, n), Visit(k), EndVisits, Delete, Delete, Finish];
  }

  /** The gap is real: a packet landing after its key was read and before it is deleted is gone, in
      no window and not in the map. */
  lemma GapLoses<K(!new)>(k: K, n: nat)
    requires n > 0
    ensures var es := [Begin, Visit(k), EndVisits, Packet(k, n), Delete, Finish];
            && Legal(1, Start(map[k := 1]), es)
            && var s := Run(1, Start(map[k := 1]), es);
               Got(s.arrived, k) == 1 + n && Reported(s.windows, k) == 1 && k !in s.resident && Got(s.lost, k) == n
  {
    var s0 := Start(map[k := 1]);
    var s1 := Next(1, s0, Begin);
    var s2 := Next(1, s1, Visit(k));
    var s3 := Next(1, s2, EndVisits);
    var s4 := Next(1, s3, Packet(k, n));
    var s5 := Next(1, s4, Delete);
    var s6 := Next(1, s5, Finish);
    var w: seq<map<K, nat>> := [];
    ReportedOfSnoc(w, s5.seen, k);
    RunCons(1, s5, Finish, []);
    RunCons(1, s4, Delete, [Finish]);
    RunCons(1, s3, Packet(k, n), [Delete, Finish]);
    RunCons(1, s2, EndVisits, [Packet(k, n), Delete, Finish]);
    RunCons(1, s1, Visit(k), [EndVisits, Packet(k, n), Delete, Finish]);
    RunCons(1, s0, Begin, [Visit(k), EndVisits, Packet(k, n), Delete, Finish]);
    assert [Begin] + [Visit(k), EndVisits, Packet(k, n), Delete, Finish]
        == [Begin, Visit(k), EndVisits, Packet(k, n), Delete, Finish];
  }

  lemma RunCons<K(!new)>(cap: nat, s: State<K>, e: Event<K>, es: seq<Event<K>>)
    requires Enabled(s, e) && Legal(cap, Next(cap, s, e), es)
    ensures Legal(cap, s, [e] + es) && Run(cap, s, [e] + es) == Run(cap, Next(cap, s, e), es)
  {
    assert ([e] + es)[1..] == es;
  }
}
