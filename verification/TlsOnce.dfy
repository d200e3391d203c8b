/** The once-per-flow capture of TLS hellos (bpf/anlf.c:160-198, 247-274; the state map is an LRU map,
    bpf/include/maps.h:102-109) over runs with arbitrary evictions. */
module TlsOnce {
  import opened PacketPath
  import opened PacketRuns

  function KeyOf(e: TlsEvent): FlowKey {
    FlowKey(e.src, e.dst, e.srcPort, e.dstPort, TCP)
  }

  /** The captures of a flow among the events. */
  function CapturesOf(events: seq<TlsEvent>, k: FlowKey): nat {
    if events == [] then 0
    else CapturesOf(events[..|events| - 1], k) + If(KeyOf(events[|events| - 1]) == k)
  }

  /** A packet on the flow, to port 443, whose first payload byte is that of a handshake record. */
  predicate Hello(op: Op, k: FlowKey) {
    op.Ingress? && SeenIngress(op.frame).Some? && IsHello(SeenIngress(op.frame).value)
    && FlowOf(SeenIngress(op.frame).value) == k
  }

  /** Whether a hello arrived since the flow's state was last evicted. */
  predicate HelloSinceEviction(ops: seq<Op>, k: FlowKey) {
    ops != []
    && var front, op := ops[..|ops| - 1], ops[|ops| - 1];
       op != EvictTls(k) && (Hello(op, k) || HelloSinceEviction(front, k))
  }

  function Evictions(ops: seq<Op>, k: FlowKey): nat {
    if ops == [] then 0 else Evictions(ops[..|ops| - 1], k) + If(ops[|ops| - 1] == EvictTls(k))
  }

  /** The stretches between evictions that contain a hello. */
  function Stretches(ops: seq<Op>, k: FlowKey): nat {
    if ops == [] then 0
    else
      var front, op := ops[..|ops| - 1], ops[|ops| - 1];
      Stretches(front, k) + If(Hello(op, k) && !HelloSinceEviction(front, k))
  }

  lemma CapturesOfSnoc(events: seq<TlsEvent>, e: TlsEvent, k: FlowKey)
    ensures CapturesOf(events + [e], k) == CapturesOf(events, k) + If(KeyOf(e) == k)
  {
    assert (events + [e])[..|events|] == events;
  }

  /** What an uplink packet does to one flow. */
  lemma UplinkOnFlow(m: Maps, u: Seen, k: FlowKey)
    ensures Captured(Uplink(m, u).tls, k) <==> (IsHello(u) && FlowOf(u) == k) || Captured(m.tls, k)
    ensures CapturesOf(Uplink(m, u).events, k)
         == CapturesOf(m.events, k) + If(IsHello(u) && FlowOf(u) == k && !Captured(m.tls, k))
  {
    hide CapturesOf, Count, FlowsAfter, Added, Put, HasPort;
    if Captures(m.tls, u) {
      CapturesOfSnoc(m.events, EventOf(u), k);
    }
  }

  lemma StepOnFlow(m: Maps, op: Op, k: FlowKey)
    ensures Captured(Do(m, op).tls, k) <==> op != EvictTls(k) && (Hello(op, k) || Captured(m.tls, k))
    ensures CapturesOf(Do(m, op).events, k) == CapturesOf(m.events, k) + If(Hello(op, k) && !Captured(m.tls, k))
  {
    hide CapturesOf, SeenIngress, SentEgress, Uplink, Put, CountSent;
    if op.Ingress? && SeenIngress(op.frame).Some? {
      UplinkOnFlow(m, SeenIngress(op.frame).value, k);
    }
  }

  /** The state bit says exactly whether a hello arrived since the last eviction, and each stretch
      with a hello is captured once. */
  lemma {:induction false} CapturedOncePerStretch(ops: seq<Op>, k: FlowKey)
    ensures Captured(After(ops).tls, k) <==> HelloSinceEviction(ops, k)
    ensures CapturesOf(After(ops).events, k) == Stretches(ops, k)
  {
    if ops != [] {
      hide Do, Hello, Captured;
      CapturedOncePerStretch(ops[..|ops| - 1], k);
      StepOnFlow(After(ops[..|ops| - 1]), ops[|ops| - 1], k);
    } else {
      NothingYet(k);
    }
  }

  lemma NothingYet(k: FlowKey)
    ensures !Captured(EMPTY.tls, k) && CapturesOf(EMPTY.events, k) == 0
  {
  }

  lemma {:induction false} StretchesAreBounded(ops: seq<Op>, k: FlowKey)
    ensures Stretches(ops, k) + If(!HelloSinceEviction(ops, k)) <= 1 + Evictions(ops, k)
  {
    if ops != [] {
      hide Hello;
      StretchesAreBounded(ops[..|ops| - 1], k);
      EvictionIsNoHello(ops[|ops| - 1], k);
    }
  }

  lemma EvictionIsNoHello(op: Op, k: FlowKey)
    ensures op == EvictTls(k) ==> !Hello(op, k)
  {
  }

  /** A flow is captured at most once more than its state is evicted. */
  lemma CapturesAreBounded(ops: seq<Op>, k: FlowKey)
    ensures CapturesOf(After(ops).events, k) <= 1 + Evictions(ops, k)
  {
    CapturedOncePerStretch(ops, k);
    StretchesAreBounded(ops, k);
  }

  lemma {:induction false} WithoutEvictions(ops: seq<Op>, k: FlowKey)
    requires EvictTls(k) !in ops
    ensures HelloSinceEviction(ops, k) <==> exists op :: op in ops && Hello(op, k)
    ensures Stretches(ops, k) == If(HelloSinceEviction(ops, k))
  {
    if ops != [] {
      hide Hello;
      var front, op := ops[..|ops| - 1], ops[|ops| - 1];
      assert ops == front + [op];
      WithoutEvictions(front, k);
    }
  }

  /** Without evictions a flow is captured exactly once if any packet on it says hello, else never. */
  lemma CapturedExactlyOnce(ops: seq<Op>, k: FlowKey)
    requires EvictTls(k) !in ops
    ensures CapturesOf(After(ops).events, k) == If(exists op :: op in ops && Hello(op, k))
  {
    CapturedOncePerStretch(ops, k);
    WithoutEvictions(ops, k);
  }
}
