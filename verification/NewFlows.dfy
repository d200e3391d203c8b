/** The new-flow counter over runs with arbitrary evictions from the flow map, deletions of UE entries
    and refusals by a full UE map (bpf/anlf.c:276-311; bpf/include/maps.h:49-54). */
module NewFlows {
  import opened MapTotals
  import opened PacketPath
  import opened PacketRuns
  import opened Wrappers

  /** The flow a frame opens or continues. */
  ghost function OpenedBy(op: Op): set<FlowKey> {
    if op.Ingress? && SeenIngress(op.frame).Some? && Opens(SeenIngress(op.frame).value)
    then {FlowOf(SeenIngress(op.frame).value)} else {}
  }

  /** Whether a packet opened the flow since it was last evicted. */
  ghost predicate OpenSinceEviction(ops: seq<Op>, k: FlowKey) {
    ops != []
    && var front, op := ops[..|ops| - 1], ops[|ops| - 1];
       op != EvictFlow(k) && (k in OpenedBy(op) || OpenSinceEviction(front, k))
  }

  lemma StepTracked(m: Maps, op: Op, k: FlowKey)
    ensures k in Do(m, op).flows <==> op != EvictFlow(k) && (k in OpenedBy(op) || k in m.flows)
  {
    hide SeenIngress, SentEgress, Count, CountSent, TlsAfter, EventsAfter, Added, Put, Opens, FlowOf, InLab, HasPort;
  }

  /** The flow map holds exactly the flows opened since their last eviction. */
  lemma {:induction false} TrackedExactly(ops: seq<Op>, k: FlowKey)
    ensures k in After(ops).flows <==> OpenSinceEviction(ops, k)
  {
    if ops != [] {
      hide Do, OpenedBy;
      TrackedExactly(ops[..|ops| - 1], k);
      StepTracked(After(ops[..|ops| - 1]), ops[|ops| - 1], k);
    }
  }

  // ---------------------------------------------------------------- stretches between evictions

  /** The last operation begins a stretch of a flow: it opens it, as the first since its eviction. */
  ghost predicate Begins(front: seq<Op>, op: Op, k: FlowKey) {
    k in OpenedBy(op) && !OpenSinceEviction(front, k)
  }

  /** The stretches between evictions of a flow that hold an opening packet. */
  ghost function Stretches(ops: seq<Op>, k: FlowKey): nat {
    if ops == [] then 0
    else Stretches(ops[..|ops| - 1], k) + If(Begins(ops[..|ops| - 1], ops[|ops| - 1], k))
  }

  /** The last operation begins a stretch of some flow of the UE. */
  ghost predicate BeginsFor(front: seq<Op>, op: Op, ip: Ip) {
    exists k :: k in OpenedBy(op) && k.src == ip && !OpenSinceEviction(front, k)
  }

  /** The stretches begun for a UE since its entry was last deleted, by packets that found room. */
  ghost function Begun(ops: seq<Op>, ip: Ip): nat {
    if ops == [] then 0
    else
      var front, op := ops[..|ops| - 1], ops[|ops| - 1];
      if op == DeleteUe(ip) then 0
      else Begun(front, ip) + If(BeginsFor(front, op, ip) && !Refused(After(front).ue, op, ip))
  }

  /** The stretches begun by packets that a full map refused. */
  ghost function BegunRefused(ops: seq<Op>, ip: Ip): nat {
    if ops == [] then 0
    else
      var front, op := ops[..|ops| - 1], ops[|ops| - 1];
      BegunRefused(front, ip) + If(BeginsFor(front, op, ip) && Refused(After(front).ue, op, ip))
  }

  lemma SightedCounts(m: Maps, s: seq<Sight>, op: Op, ip: Ip)
    requires op != DeleteUe(ip)
    ensures Sum(NewFlows, Sighted(m, s, op, ip))
         == Sum(NewFlows, s)
            + If((exists k :: k in OpenedBy(op) && k.src == ip && k !in m.flows) && !Refused(m.ue, op, ip))
  {
    hide SeenIngress, SentEgress, Opens, Sum;
    if op.Ingress? && SeenIngress(op.frame).Some? {
      var u := SeenIngress(op.frame).value;
      SumOfSnoc(NewFlows, s, Up(u, IsNewFlow(m.flows, u)));
      assert FlowOf(u).src == u.src;
      assert (exists k :: k in OpenedBy(op) && k.src == ip && k !in m.flows) <==> u.src == ip && IsNewFlow(m.flows, u);
    } else if op.Egress? && SentEgress(op.frame).Some? {
      SumOfSnoc(NewFlows, s, Down(SentEgress(op.frame).value));
    }
  }

  lemma {:induction false} SightsCount(ops: seq<Op>, ip: Ip)
    ensures Sum(NewFlows, Sights(ops, ip)) == Begun(ops, ip)
  {
    if ops != [] {
      var front, op := ops[..|ops| - 1], ops[|ops| - 1];
      hide Sighted, Sum, Do, OpenedBy, Refused, OpenSinceEviction;
      SightsCount(front, ip);
      SightsUnfold(ops, ip);
      if op == DeleteUe(ip) {
        DeletedSights(After(front), Sights(front, ip), ip);
      } else {
        SightedCounts(After(front), Sights(front, ip), op, ip);
        forall k ensures k in After(front).flows <==> OpenSinceEviction(front, k) {
          TrackedExactly(front, k);
        }
      }
    } else {
      DeletedSights(EMPTY, [], ip);
    }
  }

  lemma DeletedSights(m: Maps, s: seq<Sight>, ip: Ip)
    ensures Sighted(m, s, DeleteUe(ip), ip) == [] && Sum(NewFlows, []) == 0
  {
  }

  /** After every run a UE's new-flow counter is the number of stretches between evictions of its flows
      begun since its entry was last deleted, by packets that found room in the map. */
  lemma NewFlowsAreStretches(ops: seq<Op>, ip: Ip)
    ensures Entry(After(ops).ue, ip).newFlows == Begun(ops, ip)
  {
    hide Begun;
    EntryIsHistory(ops, ip);
    SightsCount(ops, ip);
  }

  // ---------------------------------------------------------------- flow by flow

  ghost function Opened(ops: seq<Op>): set<FlowKey> {
    if ops == [] then {} else Opened(ops[..|ops| - 1]) + OpenedBy(ops[|ops| - 1])
  }

  /** The distinct TCP-SYN and UDP flows of a UE. */
  ghost function FlowsOf(ops: seq<Op>, ip: Ip): set<FlowKey> {
    set k | k in Opened(ops) && k.src == ip
  }

  /** The number of stretches of each flow of a UE. */
  ghost function StretchesOf(ops: seq<Op>, ip: Ip): map<FlowKey, nat> {
    map k | k in FlowsOf(ops, ip) :: Stretches(ops, k)
  }

  lemma OpenedByOne(op: Op, k: FlowKey, j: FlowKey)
    requires k in OpenedBy(op) && j in OpenedBy(op)
    ensures k == j
  {
  }

  lemma {:induction false} UnopenedHasNone(ops: seq<Op>, k: FlowKey)
    requires k !in Opened(ops)
    ensures Stretches(ops, k) == 0 && !OpenSinceEviction(ops, k)
  {
    if ops != [] {
      hide OpenedBy;
      UnopenedHasNone(ops[..|ops| - 1], k);
    }
  }

  lemma StretchesOfSnoc(ops: seq<Op>, ip: Ip)
    requires ops != []
    ensures var front, op := ops[..|ops| - 1], ops[|ops| - 1];
            Total(StretchesOf(ops, ip)) == Total(StretchesOf(front, ip)) + If(BeginsFor(front, op, ip))
  {
    var front, op := ops[..|ops| - 1], ops[|ops| - 1];
    hide OpenedBy, OpenSinceEviction, StretchesOf, Total;
    if k :| k in OpenedBy(op) && k.src == ip && !OpenSinceEviction(front, k) {
      OneMoreStretch(ops, ip, k);
      TotalOfUpdate(StretchesOf(front, ip), k, 1);
    } else {
      NoMoreStretches(ops, ip);
    }
  }

  lemma OneMoreStretch(ops: seq<Op>, ip: Ip, k: FlowKey)
    requires ops != [] && k.src == ip && Begins(ops[..|ops| - 1], ops[|ops| - 1], k)
    ensures StretchesOf(ops, ip) == Plus(StretchesOf(ops[..|ops| - 1], ip), k, 1)
  {
    var front, op := ops[..|ops| - 1], ops[|ops| - 1];
    forall j | j in OpenedBy(op) ensures j == k {
      OpenedByOne(op, j, k);
    }
    hide OpenedBy, OpenSinceEviction;
    assert FlowsOf(ops, ip) == FlowsOf(front, ip) + {k};
    forall j | j in FlowsOf(ops, ip) ensures Stretches(ops, j) == Got(StretchesOf(front, ip), j) + If(j == k) {
      assert Stretches(ops, j) == Stretches(front, j) + If(j == k);
      if j !in Opened(front) {
        UnopenedHasNone(front, j);
      }
    }
    hide FlowsOf, Stretches, Begins;
    IsPlus(StretchesOf(front, ip), k, 1, StretchesOf(ops, ip));
  }

  lemma NoMoreStretches(ops: seq<Op>, ip: Ip)
    requires ops != [] && !BeginsFor(ops[..|ops| - 1], ops[|ops| - 1], ip)
    ensures StretchesOf(ops, ip) == StretchesOf(ops[..|ops| - 1], ip)
  {
    var front, op := ops[..|ops| - 1], ops[|ops| - 1];
    hide OpenedBy, OpenSinceEviction;
    forall j | j in OpenedBy(op) && j.src == ip ensures j in Opened(front) {
      if j !in Opened(front) {
        UnopenedHasNone(front, j);
      }
    }
    assert FlowsOf(ops, ip) == FlowsOf(front, ip);
    forall j | j in FlowsOf(ops, ip) ensures Stretches(ops, j) == Stretches(front, j) {
    }
    hide FlowsOf, Stretches;
  }

  lemma {:induction false} StretchesAreBegun(ops: seq<Op>, ip: Ip)
    requires DeleteUe(ip) !in ops
    ensures Begun(ops, ip) + BegunRefused(ops, ip) == Total(StretchesOf(ops, ip))
  {
    if ops != [] {
      var front, op := ops[..|ops| - 1], ops[|ops| - 1];
      assert ops == front + [op];
      hide BeginsFor, Refused, StretchesOf, Total;
      StretchesAreBegun(front, ip);
      StretchesOfSnoc(ops, ip);
    } else {
      assert StretchesOf(ops, ip) == map[];
    }
  }

  /** While the entry is not deleted, the counter and the stretches begun by refused packets are the
      sum, over the UE's flows, of the stretches of each. */
  lemma NewFlowsFlowByFlow(ops: seq<Op>, ip: Ip)
    requires DeleteUe(ip) !in ops
    ensures Entry(After(ops).ue, ip).newFlows + BegunRefused(ops, ip) == Total(StretchesOf(ops, ip))
  {
    hide Begun, BegunRefused, StretchesOf, Total;
    NewFlowsAreStretches(ops, ip);
    StretchesAreBegun(ops, ip);
  }

  lemma {:induction false} OneStretch(ops: seq<Op>, k: FlowKey)
    requires EvictFlow(k) !in ops
    ensures OpenSinceEviction(ops, k) <==> k in Opened(ops)
    ensures Stretches(ops, k) == If(k in Opened(ops))
  {
    if ops != [] {
      hide OpenedBy;
      var front, op := ops[..|ops| - 1], ops[|ops| - 1];
      assert ops == front + [op];
      OneStretch(front, k);
    }
  }

  lemma {:induction false} NoneRefused(ops: seq<Op>, ip: Ip)
    requires Refusals(ops, ip) == 0
    ensures BegunRefused(ops, ip) == 0
  {
    if ops != [] {
      hide BeginsFor, Refused;
      NoneRefused(ops[..|ops| - 1], ip);
    }
  }

  /** With no flow of the UE evicted, its entry not deleted and none of its packets refused, the
      counter is the number of its distinct flows; refused openings make up any difference. */
  lemma NewFlowCountExact(ops: seq<Op>, ip: Ip)
    requires (forall k: FlowKey | k.src == ip :: EvictFlow(k) !in ops) && DeleteUe(ip) !in ops
    ensures Entry(After(ops).ue, ip).newFlows + BegunRefused(ops, ip) == |FlowsOf(ops, ip)|
    ensures Refusals(ops, ip) == 0 ==> Entry(After(ops).ue, ip).newFlows == |FlowsOf(ops, ip)|
  {
    hide Total, Stretches, Opened, Refusals, BegunRefused;
    NewFlowsFlowByFlow(ops, ip);
    forall k | k in FlowsOf(ops, ip) ensures Stretches(ops, k) == 1 {
      OneStretch(ops, k);
    }
    TotalOfOnes(StretchesOf(ops, ip));
    assert StretchesOf(ops, ip).Keys == FlowsOf(ops, ip);
    if Refusals(ops, ip) == 0 {
      NoneRefused(ops, ip);
    }
  }

  /** In particular in a run of no more UEs than the map holds. */
  lemma NewFlowCountOfFewUes(ops: seq<Op>, ip: Ip)
    requires |Ues(ops)| <= 10240
    requires (forall k: FlowKey | k.src == ip :: EvictFlow(k) !in ops) && DeleteUe(ip) !in ops
    ensures Entry(After(ops).ue, ip).newFlows == |FlowsOf(ops, ip)|
  {
    FewUesNoRefusal(ops, ip);
    NewFlowCountExact(ops, ip);
  }
}
