/** The GTP-U header parser of bpf/protocols/gtpu.h: the fixed header, the optional fields, and the
    extension-header chain of 3GPP TS 29.281 sections 5.1 and 5.2.1. A pointer is an offset from the
    first byte of the header; the buffer ends where the packet ends. */
module Gtpu {

  type byte = x: int | 0 <= x < 256

  const FIXED := 8     // flags, message type, message length, TEID
  const OPTIONAL := 4  // sequence number, N-PDU number, type of the first extension

  predicate AnyFlag(flags: byte) { flags % 8 != 0 }

  predicate FlagE(flags: byte) { flags / 4 % 2 == 1 }

  function Be16(hi: byte, lo: byte): (r: nat)
    ensures r < 0x1_0000
  {
    256 * hi + lo
  }

  /** The size of an extension header: its first byte counts units of four. */
  function ExtTotal(len4: byte): nat {
    var n: nat := len4;
    4 * n
  }

  // ---------------------------------------------------------------- the parser

  /** One bounded step along the chain, GTPU_STEP_EXT_ONCE_BOUNDED: nothing when `next` is 0. */
  method StepExtOnce(buf: seq<byte>, p: nat, next: byte, remain: nat)
    returns (ok: bool, q: nat, kind: byte, left: nat)
    requires p <= |buf|
    ensures ok ==> p <= q <= |buf|
    ensures ok && next == 0 ==> q == p && kind == 0 && left == remain
    ensures ok && next != 0 ==> Walk(buf, p, next, remain) == OneMore(Walk(buf, q, kind, left))
    ensures !ok ==> Walk(buf, p, next, remain) == Malformed
  {
    q, kind, left := p, next, remain;
    if kind != 0 {
      if q + 1 > |buf| { return false, q, kind, left; }
      var len4 := buf[q];
      if len4 == 0 { return false, q, kind, left; }
      var total := ExtTotal(len4);
      if total < 4 { return false, q, kind, left; }
      if q + total > |buf| { return false, q, kind, left; }
      if left < total { return false, q, kind, left; }
      kind := buf[q + total - 1];
      q := q + total;
      left := left - total;
    }
    ok := true;
  }

  /** `gtpu_locate_inner_l3`: the offset of the inner packet or -1, and the message length that was
      read (left at the caller's 0 when the fixed header is cut short). */
  method GtpuLocateInnerL3(buf: seq<byte>) returns (r: int, msgLen: nat)
    ensures r == Inner(buf)
    ensures msgLen == if |buf| < FIXED then 0 else Be16(buf[2], buf[3])
  {
    msgLen := 0;
    if FIXED > |buf| { return -1, msgLen; }
    var p := FIXED;
    var remain := Be16(buf[2], buf[3]);
    msgLen := remain;
    if AnyFlag(buf[0]) {
      if remain < OPTIONAL { return -1, msgLen; }
      if p + OPTIONAL > |buf| { return -1, msgLen; }
      var next := buf[p + 3];
      p := p + OPTIONAL;
      remain := remain - OPTIONAL;
      if FlagE(buf[0]) {
        hide Walk;
        var ok;
        ok, p, next, remain := StepExtOnce(buf, p, next, remain);
        if !ok { return -1, msgLen; }
        ok, p, next, remain := StepExtOnce(buf, p, next, remain);
        if !ok { return -1, msgLen; }
        ok, p, next, remain := StepExtOnce(buf, p, next, remain);
        if !ok { return -1, msgLen; }
        ok, p, next, remain := StepExtOnce(buf, p, next, remain);
        if !ok { return -1, msgLen; }
        ok, p, next, remain := StepExtOnce(buf, p, next, remain);
        if !ok { return -1, msgLen; }
        ok, p, next, remain := StepExtOnce(buf, p, next, remain);
        if !ok { return -1, msgLen; }
        WalkEnds(buf, p, next, remain);
        if next != 0 { return -1, msgLen; }
      }
    }
    r := p;
  }

  lemma WalkEnds(buf: seq<byte>, p: nat, next: byte, remain: nat)
    requires p <= |buf|
    ensures next == 0 ==> Walk(buf, p, next, remain) == Found(p, 0)
    ensures next != 0 ==> Walk(buf, p, next, remain).Found? ==> Walk(buf, p, next, remain).hops > 0
  {
  }

  // ---------------------------------------------------------------- the unbounded walk

  datatype Located = Found(offset: nat, hops: nat) | Malformed

  function OneMore(l: Located): Located {
    match l
    case Found(o, h) => Found(o, h + 1)
    case Malformed => Malformed
  }

  /** The extension chain followed to its end, however long: each extension starts with its length
      in units of four bytes and ends with the type of the next one, 0 meaning none. */
  function Walk(buf: seq<byte>, p: nat, next: byte, remain: nat): Located
    requires p <= |buf|
    decreases remain
  {
    if next == 0 then Found(p, 0)
    else if p == |buf| || buf[p] == 0 || p + ExtTotal(buf[p]) > |buf| || remain < ExtTotal(buf[p]) then Malformed
    else OneMore(Walk(buf, p + ExtTotal(buf[p]), buf[p + ExtTotal(buf[p]) - 1], remain - ExtTotal(buf[p])))
  }

  function WalkHeader(buf: seq<byte>): Located {
    if |buf| < FIXED then Malformed
    else if !AnyFlag(buf[0]) then Found(FIXED, 0)
    else if Be16(buf[2], buf[3]) < OPTIONAL || |buf| < FIXED + OPTIONAL then Malformed
    else if !FlagE(buf[0]) then Found(FIXED + OPTIONAL, 0)
    else Walk(buf, FIXED + OPTIONAL, buf[FIXED + 3], Be16(buf[2], buf[3]) - OPTIONAL)
  }

  const MAX_HOPS := 6

  /** What the parser returns: the end of the walk, when it is reached in at most six hops. */
  function Inner(buf: seq<byte>): int {
    match WalkHeader(buf)
    case Malformed => -1
    case Found(o, h) => if h <= MAX_HOPS then o else -1
  }

  lemma {:induction false} WalkBounds(buf: seq<byte>, p: nat, next: byte, remain: nat)
    requires p <= |buf| && Walk(buf, p, next, remain).Found?
    ensures var o := Walk(buf, p, next, remain).offset;
            p <= o <= |buf| && o - p <= remain && (o - p) % 4 == 0
    ensures var w := Walk(buf, p, next, remain); 4 * w.hops <= w.offset - p <= 1020 * w.hops
    decreases remain
  {
    if next != 0 {
      WalkBounds(buf, p + ExtTotal(buf[p]), buf[p + ExtTotal(buf[p]) - 1], remain - ExtTotal(buf[p]));
    }
  }

  /** Where an accepted header can end: word-aligned, inside the buffer and, when an optional field
      is present, inside the length the header declares. */
  lemma InnerBounds(buf: seq<byte>)
    requires Inner(buf) >= 0
    ensures FIXED <= Inner(buf) <= |buf| && Inner(buf) % 4 == 0
    ensures AnyFlag(buf[0]) ==> OPTIONAL <= Inner(buf) - FIXED <= Be16(buf[2], buf[3])
    ensures Inner(buf) <= FIXED + OPTIONAL + 1020 * MAX_HOPS
    ensures !AnyFlag(buf[0]) ==> Inner(buf) == FIXED
  {
    if AnyFlag(buf[0]) && FlagE(buf[0]) {
      WalkBounds(buf, FIXED + OPTIONAL, buf[FIXED + 3], Be16(buf[2], buf[3]) - OPTIONAL);
    }
  }

  // ---------------------------------------------------------------- encoded headers

  /** An extension header: its type, and its content between the length and the next type. */
  datatype Ext = Ext(kind: byte, content: seq<byte>)

  predicate WellFormed(e: Ext) {
    e.kind != 0 && (|e.content| + 2) % 4 == 0 && |e.content| + 2 <= 4 * 255
  }

  ghost predicate AllWellFormed(exts: seq<Ext>) {
    forall e | e in exts :: WellFormed(e)
  }

  function First(exts: seq<Ext>): byte {
    if exts == [] then 0 else exts[0].kind
  }

  ghost function Bytes(exts: seq<Ext>): seq<byte>
    requires AllWellFormed(exts)
  {
    if exts == [] then []
    else
      assert WellFormed(exts[0]);
      OneExt(exts[0], First(exts[1..])) + Bytes(exts[1..])
  }

  function OneExt(e: Ext, next: byte): seq<byte>
    requires WellFormed(e)
  {
    [(|e.content| + 2) / 4] + e.content + [next]
  }

  lemma BytesCons(e: Ext, rest: seq<Ext>)
    requires WellFormed(e) && AllWellFormed(rest)
    ensures AllWellFormed([e] + rest) && Bytes([e] + rest) == OneExt(e, First(rest)) + Bytes(rest)
  {
    assert ([e] + rest)[1..] == rest;
  }

  lemma SplitThree(buf: seq<byte>, p: nat, q: nat, o: nat)
    requires p + 1 < q <= o <= |buf|
    ensures buf[p..o] == [buf[p]] + buf[p + 1..q - 1] + [buf[q - 1]] + buf[q..o]
  {
  }

  /** Walking an encoded chain visits every extension and stops right behind the last. */
  lemma {:induction false} WalkOfBytes(buf: seq<byte>, p: nat, exts: seq<Ext>, remain: nat)
    requires AllWellFormed(exts) && p <= |buf| && Bytes(exts) <= buf[p..] && |Bytes(exts)| <= remain
    ensures Walk(buf, p, First(exts), remain) == Found(p + |Bytes(exts)|, |exts|)
    decreases |exts|
  {
    if exts != [] {
      assert WellFormed(exts[0]);
      OneExtAt(buf, p, exts[0], First(exts[1..]), Bytes(exts[1..]));
      WalkOfBytes(buf, p + ExtTotal(buf[p]), exts[1..], remain - ExtTotal(buf[p]));
    }
  }

  /** Where the fields of an encoded extension lie. */
  lemma OneExtAt(buf: seq<byte>, p: nat, e: Ext, next: byte, rest: seq<byte>)
    requires WellFormed(e) && p <= |buf| && OneExt(e, next) + rest <= buf[p..]
    ensures p < |buf| && buf[p] != 0 && ExtTotal(buf[p]) == |OneExt(e, next)|
    ensures p + ExtTotal(buf[p]) <= |buf| && buf[p + ExtTotal(buf[p]) - 1] == next
    ensures rest <= buf[p + ExtTotal(buf[p])..]
  {
    var one := OneExt(e, next);
    PrefixSplits(one, rest, buf[p..]);
    assert buf[p] == one[0] && buf[p + |one| - 1] == buf[p..][|one| - 1] == one[|one| - 1];
    assert buf[p..][|one|..] == buf[p + |one|..];
  }

  lemma PrefixSplits(a: seq<byte>, b: seq<byte>, s: seq<byte>)
    requires a + b <= s
    ensures |a| + |b| <= |s| && b <= s[|a|..] && forall i | 0 <= i < |a| :: s[i] == a[i]
  {
    forall i | 0 <= i < |a| + |b| ensures s[i] == (a + b)[i] {
    }
    assert s[|a|..][..|b|] == b;
  }

  /** The extensions a successful walk passes over. */
  ghost function Parsed(buf: seq<byte>, p: nat, next: byte, remain: nat): seq<Ext>
    requires p <= |buf| && Walk(buf, p, next, remain).Found?
    decreases remain
  {
    if next == 0 then []
    else [Ext(next, buf[p + 1..p + ExtTotal(buf[p]) - 1])]
         + Parsed(buf, p + ExtTotal(buf[p]), buf[p + ExtTotal(buf[p]) - 1], remain - ExtTotal(buf[p]))
  }

  /** Conversely, whatever a successful walk passed over is an encoded chain. */
  lemma {:induction false} BytesOfWalk(buf: seq<byte>, p: nat, next: byte, remain: nat)
    requires p <= |buf| && Walk(buf, p, next, remain).Found?
    ensures var w, exts := Walk(buf, p, next, remain), Parsed(buf, p, next, remain);
            && AllWellFormed(exts) && First(exts) == next && |exts| == w.hops
            && p <= w.offset <= |buf| && Bytes(exts) == buf[p..w.offset]
    decreases remain
  {
    if next != 0 {
      var total := ExtTotal(buf[p]);
      var q, kind := p + total, buf[p + total - 1];
      BytesOfWalk(buf, q, kind, remain - total);
      var rest := Parsed(buf, q, kind, remain - total);
      var o := Walk(buf, p, next, remain).offset;
      var content := buf[p + 1..q - 1];
      BytesCons(Ext(next, content), rest);
      assert Parsed(buf, p, next, remain) == [Ext(next, content)] + rest;
      SplitThree(buf, p, q, o);
    }
  }

  /** `unused` is the next-extension byte of a header with optional fields and no E flag: it is there,
      and means nothing. */
  datatype Header = Header(
    flags: byte, kind: byte, teid: seq<byte>, sequence: seq<byte>, npdu: byte, unused: byte, exts: seq<Ext>)

  /** A header with its length field left to the encoder. Without the E flag there are no
      extensions to encode. */
  ghost predicate Encodable(h: Header, payload: seq<byte>) {
    && |h.teid| == 4 && |h.sequence| == 2 && AllWellFormed(h.exts)
    && (!FlagE(h.flags) ==> h.exts == [])
    && |Tail(h)| + |payload| < 0x1_0000
  }

  ghost function Tail(h: Header): seq<byte>
    requires AllWellFormed(h.exts)
  {
    if FlagE(h.flags) then h.sequence + [h.npdu, First(h.exts)] + Bytes(h.exts)
    else if AnyFlag(h.flags) then h.sequence + [h.npdu, h.unused]
    else []
  }

  ghost function Encode(h: Header, payload: seq<byte>): seq<byte>
    requires Encodable(h, payload)
  {
    var len := |Tail(h)| + |payload|;
    [h.flags, h.kind, len / 256, len % 256] + h.teid + Tail(h)
  }

  /** Round trip: the payload behind an encoded header is found exactly when the header has at most
      six extensions. */
  lemma EncodedIsLocated(h: Header, payload: seq<byte>)
    requires Encodable(h, payload)
    ensures Inner(Encode(h, payload) + payload) == if |h.exts| <= 6 then |Encode(h, payload)| else -1
  {
    EncodedFixed(h, payload);
    if FlagE(h.flags) {
      EncodedChain(h, payload);
    }
    hide Encode, Tail, Walk, Bytes;
  }

  /** The fixed part of an encoded header, as the parser reads it back. */
  lemma EncodedFixed(h: Header, payload: seq<byte>)
    requires Encodable(h, payload)
    ensures var buf := Encode(h, payload) + payload;
            && |buf| >= FIXED && buf[0] == h.flags && Be16(buf[2], buf[3]) == |Tail(h)| + |payload|
    ensures |Encode(h, payload)| == FIXED + |Tail(h)|
    ensures AnyFlag(h.flags) ==> |Tail(h)| >= OPTIONAL
    ensures !FlagE(h.flags) ==> |Tail(h)| == if AnyFlag(h.flags) then OPTIONAL else 0
  {
    hide Bytes;
  }

  lemma EncodedChain(h: Header, payload: seq<byte>)
    requires Encodable(h, payload) && FlagE(h.flags)
    ensures WalkHeader(Encode(h, payload) + payload) == Found(|Encode(h, payload)|, |h.exts|)
  {
    EncodedFixed(h, payload);
    ChainPlace(h, payload);
    hide Encode, Walk, Bytes;
    var buf := Encode(h, payload) + payload;
    WalkOfBytes(buf, FIXED + OPTIONAL, h.exts, Be16(buf[2], buf[3]) - OPTIONAL);
  }

  lemma ChainPlace(h: Header, payload: seq<byte>)
    requires Encodable(h, payload) && FlagE(h.flags)
    ensures var buf := Encode(h, payload) + payload;
            && |buf| >= FIXED + OPTIONAL && buf[FIXED + 3] == First(h.exts)
            && Bytes(h.exts) <= buf[FIXED + OPTIONAL..] && |Tail(h)| == OPTIONAL + |Bytes(h.exts)|
  {
    hide Bytes;
    var buf := Encode(h, payload) + payload;
    assert buf[FIXED + OPTIONAL..] == Bytes(h.exts) + payload;
  }

  /** Nothing else is located: an accepted buffer with the E flag starts with an encoded chain of at
      most six extensions, and one with a longer or broken chain is refused. */
  lemma LocatedIsEncoded(buf: seq<byte>)
    requires |buf| >= FIXED + OPTIONAL && AnyFlag(buf[0]) && FlagE(buf[0])
    ensures Inner(buf) >= 0 <==>
            exists exts: seq<Ext> :: IsChain(buf, exts) && |exts| <= 6
    ensures forall exts: seq<Ext> | IsChain(buf, exts) && |exts| <= 6 ::
              Inner(buf) == FIXED + OPTIONAL + |Bytes(exts)|
  {
    if Inner(buf) >= 0 {
      var exts := ChainOfLocated(buf);
    }
    forall exts: seq<Ext> | IsChain(buf, exts) && |exts| <= 6
      ensures Inner(buf) == FIXED + OPTIONAL + |Bytes(exts)|
    {
      ChainIsLocated(buf, exts);
    }
  }

  lemma ChainOfLocated(buf: seq<byte>) returns (exts: seq<Ext>)
    requires |buf| >= FIXED + OPTIONAL && AnyFlag(buf[0]) && FlagE(buf[0]) && Inner(buf) >= 0
    ensures IsChain(buf, exts) && |exts| <= 6
  {
    var start, remain := FIXED + OPTIONAL, Be16(buf[2], buf[3]) - OPTIONAL;
    hide Walk, Bytes, Parsed, AllWellFormed, First;
    BytesOfWalk(buf, start, buf[FIXED + 3], remain);
    WalkBounds(buf, start, buf[FIXED + 3], remain);
    exts := Parsed(buf, start, buf[FIXED + 3], remain);
    assert buf[start..Inner(buf)] <= buf[start..];
  }

  lemma ChainIsLocated(buf: seq<byte>, exts: seq<Ext>)
    requires |buf| >= FIXED + OPTIONAL && AnyFlag(buf[0]) && FlagE(buf[0])
    requires IsChain(buf, exts) && |exts| <= 6
    ensures Inner(buf) == FIXED + OPTIONAL + |Bytes(exts)|
  {
    hide Walk, Bytes;
    WalkOfBytes(buf, FIXED + OPTIONAL, exts, Be16(buf[2], buf[3]) - OPTIONAL);
  }

  /** The bytes behind the optional fields start with these extensions, within the declared length. */
  ghost predicate IsChain(buf: seq<byte>, exts: seq<Ext>)
    requires |buf| >= FIXED + OPTIONAL
  {
    && AllWellFormed(exts) && First(exts) == buf[FIXED + 3]
    && Bytes(exts) <= buf[FIXED + OPTIONAL..]
    && OPTIONAL + |Bytes(exts)| <= Be16(buf[2], buf[3])
  }

  // ---------------------------------------------------------------- on the wire

  /** The flags byte: version and protocol type, then the E, S and PN bits. */
  function FlagsByte(high: nat, e: bool, s: bool, pn: bool): byte
    requires high < 32
  {
    8 * high + (if e then 4 else 0) + (if s then 2 else 0) + (if pn then 1 else 0)
  }

  lemma FlagBits(high: nat, e: bool, s: bool, pn: bool)
    requires high < 32
    ensures FlagE(FlagsByte(high, e, s, pn)) <==> e
    ensures AnyFlag(FlagsByte(high, e, s, pn)) <==> e || s || pn
  {
  }

  /** Where the inner packet is found behind a header written byte by byte, for every combination of the
      three flag bits: right behind the fixed header, behind the optional fields, or behind the
      extension chain, which only the E bit announces and which may have up to six extensions. */
  lemma LocatedByBits(high: nat, e: bool, s: bool, pn: bool, kind: byte, teid: seq<byte>, sequence: seq<byte>,
                      npdu: byte, next: byte, exts: seq<Ext>, payload: seq<byte>)
    requires high < 32 && |teid| == 4 && |sequence| == 2 && AllWellFormed(exts) && (e ==> next == First(exts))
    requires 4 + |Bytes(exts)| + |payload| < 0x1_0000
    ensures var optional := if e || s || pn then sequence + [npdu, next] else [];
            var rest := if e then optional + Bytes(exts) else optional;
            var len := |rest| + |payload|;
            var buf := [8 * high + (if e then 4 else 0) + (if s then 2 else 0) + (if pn then 1 else 0), kind, len / 256, len % 256]
                       + teid + rest + payload;
            Inner(buf) == (if e then (if |exts| <= 6 then 12 + |Bytes(exts)| else -1) else if s || pn then 12 else 8)
  {
    FlagBits(high, e, s, pn);
    var h := Header(FlagsByte(high, e, s, pn), kind, teid, sequence, npdu, next, if e then exts else []);
    TailByBits(h, e, s, pn);
    EncodedFixed(h, payload);
    EncodedIsLocated(h, payload);
    hide Inner, Bytes, AllWellFormed, First, FlagE, AnyFlag;
  }

  lemma TailByBits(h: Header, e: bool, s: bool, pn: bool)
    requires AllWellFormed(h.exts) && |h.sequence| == 2
    requires (FlagE(h.flags) <==> e) && (AnyFlag(h.flags) <==> e || s || pn)
    ensures Tail(h) == if e then h.sequence + [h.npdu, First(h.exts)] + Bytes(h.exts)
                       else if s || pn then h.sequence + [h.npdu, h.unused] else []
  {
  }
}
