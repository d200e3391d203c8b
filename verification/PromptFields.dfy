/** The prompt field by field (internal/analyzer/detector/llm_client.go:117-201): which value each
    placeholder stands for, what the fallback line reads, and which line is the user line. */
module PromptFields {
  import opened PromptTemplate
  import opened PromptBuilder
  import opened Wrappers

  // ---------------------------------------------------------------- the keys are distinct

  /** Tells the keys apart by their length and one or two of their letters. */
  function Index(k: string): int {
    if |k| >= 17 then
      (if |k| == 20 then 1
       else if k[7] == 'u' then (if k[10] == 'l' then 0 else 2)
       else if k[7] == 'd' then (if k[10] == 'l' then 4 else 5)
       else 7)
    else if |k| == 14 then 3
    else if |k| == 16 then 6
    else if |k| == 10 then
      (if k[0] == 'u' then (if k[3] == 'l' then 8 else 10)
       else if k[0] == 'd' then (if k[3] == 'l' then 9 else 11)
       else if k[0] == 'b' then 15
       else 19)
    else if |k| == 13 then 12
    else if |k| == 7 then 13
    else if |k| == 9 then
      (if k[0] == 'p' then 14 else if k[0] == 'a' then 16 else if k[0] == 't' then 17 else if k[0] == 'u' then 18
       else if k[0] == 's' then 20 else 21)
    else 22
  }

  lemma GlobalIndex(stats: Option<GlobalText>)
    ensures |GlobalSubs(stats)| == 8 && forall i | 0 <= i < 8 :: Index(GlobalSubs(stats)[i].key) == i
  {
  }

  lemma VolumeIndex(u: UeText)
    ensures |VolumeSubs(u)| == 6 && forall i | 0 <= i < 6 :: Index(VolumeSubs(u)[i].key) == 8 + i
  {
  }

  lemma RatioIndex(u: UeText)
    ensures |RatioSubs(u)| == 8 && forall i | 0 <= i < 8 :: Index(RatioSubs(u)[i].key) == 14 + i
  {
  }

  lemma SystemIndex(stats: Option<GlobalText>, u: UeText)
    ensures |SystemSubs(stats, u)| == 22 && forall i | 0 <= i < 22 :: Index(SystemSubs(stats, u)[i].key) == i
    ensures DistinctKeys(SystemSubs(stats, u))
  {
    GlobalIndex(stats);
    VolumeIndex(u);
    RatioIndex(u);
    hide Index, GlobalSubs, VolumeSubs, RatioSubs;
  }

  lemma UserIndex(u: UeText)
    ensures |UserSubs(u)| == 14 && DistinctKeys(UserSubs(u))
  {
    var ks := [8, 10, 12, 13, 17, 20, 21, 9, 11, 14, 15, 16, 18, 19];
    UserCodes(u, ks);
    hide Index, UserSubs;
    forall i, j | 0 <= i < j < 14 ensures ks[i] != ks[j] {
    }
  }

  lemma UserCodes(u: UeText, ks: seq<int>)
    requires ks == [8, 10, 12, 13, 17, 20, 21, 9, 11, 14, 15, 16, 18, 19]
    ensures |UserSubs(u)| == 14 && forall i | 0 <= i < 14 :: Index(UserSubs(u)[i].key) == ks[i]
  {
  }

  // ---------------------------------------------------------------- what each key stands for

  /** The substitution has this key and this value. */
  predicate StandsFor(m: map<string, string>, k: string, v: string) {
    k in m && m[k] == v
  }

  lemma NthStandsFor(subs: seq<Sub>, i: nat, k: string, v: string)
    requires DistinctKeys(subs) && i < |subs| && subs[i] == Sub(k, v)
    ensures StandsFor(Meaning(subs), k, v)
  {
    MeaningOfDistinct(subs, i);
  }

  /** Each of the eight global placeholders stands for its own statistic. */
  lemma GlobalPlaceholders(g: GlobalText, u: UeText)
    ensures var m := Meaning(SystemSubs(Some(g), u));
            && StandsFor(m, "global_ul_log_pps", g.ulLogPps) && StandsFor(m, "global_new_flow_rate", g.newFlowRate)
            && StandsFor(m, "global_ul_avg_len", g.ulAvgLen) && StandsFor(m, "global_fan_out", g.fanOut)
            && StandsFor(m, "global_dl_log_pps", g.dlLogPps) && StandsFor(m, "global_dl_avg_len", g.dlAvgLen)
            && StandsFor(m, "global_pps_ratio", g.ppsRatio) && StandsFor(m, "global_byte_ratio", g.byteRatio)
  {
    var subs := SystemSubs(Some(g), u);
    SystemIndex(Some(g), u);
    hide DistinctKeys, Meaning, StandsFor;
    NthStandsFor(subs, 0, "global_ul_log_pps", g.ulLogPps);
    NthStandsFor(subs, 1, "global_new_flow_rate", g.newFlowRate);
    NthStandsFor(subs, 2, "global_ul_avg_len", g.ulAvgLen);
    NthStandsFor(subs, 3, "global_fan_out", g.fanOut);
    NthStandsFor(subs, 4, "global_dl_log_pps", g.dlLogPps);
    NthStandsFor(subs, 5, "global_dl_avg_len", g.dlAvgLen);
    NthStandsFor(subs, 6, "global_pps_ratio", g.ppsRatio);
    NthStandsFor(subs, 7, "global_byte_ratio", g.byteRatio);
  }

  /** Without statistics all eight stand for "N/A". */
  lemma MissingGlobals(u: UeText)
    ensures var m := Meaning(SystemSubs(None, u));
            && StandsFor(m, "global_ul_log_pps", "N/A") && StandsFor(m, "global_new_flow_rate", "N/A")
            && StandsFor(m, "global_ul_avg_len", "N/A") && StandsFor(m, "global_fan_out", "N/A")
            && StandsFor(m, "global_dl_log_pps", "N/A") && StandsFor(m, "global_dl_avg_len", "N/A")
            && StandsFor(m, "global_pps_ratio", "N/A") && StandsFor(m, "global_byte_ratio", "N/A")
  {
    hide Meaning, StandsFor;
    GlobalPlaceholders(NotAvailable(), u);
    assert SystemSubs(None, u) == SystemSubs(Some(NotAvailable()), u);
  }

  /** The fourteen placeholders of a UE. */
  ghost predicate UePlaceholders(m: map<string, string>, u: UeText) {
    && StandsFor(m, "ul_log_pps", u.ulLogPps) && StandsFor(m, "dl_log_pps", u.dlLogPps)
    && StandsFor(m, "ul_avg_len", u.ulAvgLen) && StandsFor(m, "dl_avg_len", u.dlAvgLen)
    && StandsFor(m, "new_flow_rate", u.newFlowRate) && StandsFor(m, "fan_out", u.fanOut)
    && StandsFor(m, "pps_ratio", u.ppsRatio) && StandsFor(m, "byte_ratio", u.byteRatio)
    && StandsFor(m, "ack_ratio", u.ackRatio) && StandsFor(m, "tcp_ratio", u.tcpRatio)
    && StandsFor(m, "udp_ratio", u.udpRatio) && StandsFor(m, "icmp_ratio", u.icmpRatio)
    && StandsFor(m, "syn_ratio", u.synRatio) && StandsFor(m, "rst_ratio", u.rstRatio)
  }

  /** In the system prompt each stands for its own feature. */
  lemma SystemPlaceholders(stats: Option<GlobalText>, u: UeText)
    ensures UePlaceholders(Meaning(SystemSubs(stats, u)), u)
  {
    var subs := SystemSubs(stats, u);
    GlobalIndex(stats);
    SystemIndex(stats, u);
    hide DistinctKeys, Meaning, StandsFor, GlobalSubs, Index;
    assert forall i | 8 <= i < 14 :: subs[i] == VolumeSubs(u)[i - 8];
    assert forall i | 14 <= i < 22 :: subs[i] == RatioSubs(u)[i - 14];
    NthStandsFor(subs, 8, "ul_log_pps", u.ulLogPps);
    NthStandsFor(subs, 9, "dl_log_pps", u.dlLogPps);
    NthStandsFor(subs, 10, "ul_avg_len", u.ulAvgLen);
    NthStandsFor(subs, 11, "dl_avg_len", u.dlAvgLen);
    NthStandsFor(subs, 12, "new_flow_rate", u.newFlowRate);
    NthStandsFor(subs, 13, "fan_out", u.fanOut);
    NthStandsFor(subs, 14, "pps_ratio", u.ppsRatio);
    NthStandsFor(subs, 15, "byte_ratio", u.byteRatio);
    NthStandsFor(subs, 16, "ack_ratio", u.ackRatio);
    NthStandsFor(subs, 17, "tcp_ratio", u.tcpRatio);
    NthStandsFor(subs, 18, "udp_ratio", u.udpRatio);
    NthStandsFor(subs, 19, "icmp_ratio", u.icmpRatio);
    NthStandsFor(subs, 20, "syn_ratio", u.synRatio);
    NthStandsFor(subs, 21, "rst_ratio", u.rstRatio);
  }

  /** And in the user line. */
  lemma UserPlaceholders(u: UeText)
    ensures UePlaceholders(Meaning(UserSubs(u)), u)
  {
    var subs := UserSubs(u);
    UserIndex(u);
    UserSubsInOrder(u, subs);
    hide DistinctKeys, Meaning, StandsFor, Index, UserSubs;
    NthStandsFor(subs, 0, "ul_log_pps", u.ulLogPps);
    NthStandsFor(subs, 1, "ul_avg_len", u.ulAvgLen);
    NthStandsFor(subs, 2, "new_flow_rate", u.newFlowRate);
    NthStandsFor(subs, 3, "fan_out", u.fanOut);
    NthStandsFor(subs, 4, "tcp_ratio", u.tcpRatio);
    NthStandsFor(subs, 5, "syn_ratio", u.synRatio);
    NthStandsFor(subs, 6, "rst_ratio", u.rstRatio);
    NthStandsFor(subs, 7, "dl_log_pps", u.dlLogPps);
    NthStandsFor(subs, 8, "dl_avg_len", u.dlAvgLen);
    NthStandsFor(subs, 9, "pps_ratio", u.ppsRatio);
    NthStandsFor(subs, 10, "byte_ratio", u.byteRatio);
    NthStandsFor(subs, 11, "ack_ratio", u.ackRatio);
    NthStandsFor(subs, 12, "udp_ratio", u.udpRatio);
    NthStandsFor(subs, 13, "icmp_ratio", u.icmpRatio);
  }

  lemma UserSubsInOrder(u: UeText, subs: seq<Sub>)
    requires subs == UserSubs(u)
    ensures |subs| == 14
    ensures subs[0] == Sub("ul_log_pps", u.ulLogPps) && subs[1] == Sub("ul_avg_len", u.ulAvgLen)
    ensures subs[2] == Sub("new_flow_rate", u.newFlowRate) && subs[3] == Sub("fan_out", u.fanOut)
    ensures subs[4] == Sub("tcp_ratio", u.tcpRatio) && subs[5] == Sub("syn_ratio", u.synRatio)
    ensures subs[6] == Sub("rst_ratio", u.rstRatio) && subs[7] == Sub("dl_log_pps", u.dlLogPps)
    ensures subs[8] == Sub("dl_avg_len", u.dlAvgLen) && subs[9] == Sub("pps_ratio", u.ppsRatio)
    ensures subs[10] == Sub("byte_ratio", u.byteRatio) && subs[11] == Sub("ack_ratio", u.ackRatio)
    ensures subs[12] == Sub("udp_ratio", u.udpRatio) && subs[13] == Sub("icmp_ratio", u.icmpRatio)
  {
  }

  // ---------------------------------------------------------------- filled templates

  lemma KeysAreBraceFree(subs: seq<Sub>)
    requires WellBraced(subs)
    ensures BraceFreeKeys(Meaning(subs))
  {
    MeaningKeys(subs);
  }

  /** A template that is one placeholder is filled with exactly what it stands for. */
  lemma OnePlaceholder(k: string, v: string, stats: Option<GlobalText>, u: UeText)
    requires AllRendered(SystemSubs(stats, u)) && StandsFor(Meaning(SystemSubs(stats, u)), k, v)
    ensures FilledPrompt("{" + k + "}", stats, u) == v
  {
    PassesMeetConditions(stats, u);
    KeysAreBraceFree(SystemSubs(stats, u));
    hide Substitute, Meaning, SystemSubs, AllRendered;
    SubstitutePlaceholder(k, Meaning(SystemSubs(stats, u)));
  }

  /** Literal text, a placeholder, and the rest. */
  lemma FillNext(w: string, k: string, v: string, rest: string, m: map<string, string>)
    requires '{' !in w && BraceFree(k) && BraceFreeKeys(m) && StandsFor(m, k, v)
    ensures Substitute(w + (Placeholder(k) + rest), m) == w + (v + Substitute(rest, m))
  {
    SubstituteCopies(w, Placeholder(k) + rest, m);
    SubstituteHit(Placeholder(k) + rest, m, k);
    assert (Placeholder(k) + rest)[|k| + 2..] == rest;
    hide Substitute;
  }

  lemma FillPiece(piece: string, w: string, k: string, v: string, rest: string, m: map<string, string>)
    requires piece == w + Placeholder(k)
    requires '{' !in w && BraceFree(k) && BraceFreeKeys(m) && StandsFor(m, k, v)
    ensures Substitute(piece + rest, m) == w + (v + Substitute(rest, m))
  {
    assert piece + rest == w + (Placeholder(k) + rest);
    FillNext(w, k, v, rest, m);
  }

  /** Without a user line in the template, the user prompt reads exactly this. */
  lemma FallbackLine(u: UeText)
    requires AllRendered(UserSubs(u))
    ensures Substitute(FALLBACK, Meaning(UserSubs(u)))
         == "User Data: PPS:" + (u.ulLogPps + (", UL_Len:" + (u.ulAvgLen + (", Flow:" + (u.newFlowRate
            + (", Fan:" + (u.fanOut + (", TCP:" + (u.tcpRatio + (", SYN:" + (u.synRatio
            + (", RST:" + u.rstRatio))))))))))))
  {
    UserPlaceholders(u);
    UserSubsAreUeSubs(u);
    VolumeKeysAreNames(u);
    RatioKeysAreNames(u);
    RenderedIsInert(UserSubs(u));
    KeysAreBraceFree(UserSubs(u));
    var m := Meaning(UserSubs(u));
    FillFallback(m, u);
  }

  lemma FillFallback(m: map<string, string>, u: UeText)
    requires BraceFreeKeys(m) && UePlaceholders(m, u)
    ensures Substitute(FALLBACK, m)
         == "User Data: PPS:" + (u.ulLogPps + (", UL_Len:" + (u.ulAvgLen + (", Flow:" + (u.newFlowRate
            + (", Fan:" + (u.fanOut + (", TCP:" + (u.tcpRatio + (", SYN:" + (u.synRatio
            + (", RST:" + u.rstRatio))))))))))))
  {
    VolumeNames();
    RatioNames();
    Pieces();
    hide Substitute, StandsFor, Placeholder, BraceFreeKeys;
    var t6 := ", RST:{rst_ratio}";
    var t5 := ", SYN:{syn_ratio}" + t6;
    var t4 := ", TCP:{tcp_ratio}" + t5;
    var t3 := ", Fan:{fan_out}" + t4;
    var t2 := ", Flow:{new_flow_rate}" + t3;
    var t1 := ", UL_Len:{ul_avg_len}" + t2;
    FillPiece("User Data: PPS:{ul_log_pps}", "User Data: PPS:", "ul_log_pps", u.ulLogPps, t1, m);
    FillPiece(", UL_Len:{ul_avg_len}", ", UL_Len:", "ul_avg_len", u.ulAvgLen, t2, m);
    FillPiece(", Flow:{new_flow_rate}", ", Flow:", "new_flow_rate", u.newFlowRate, t3, m);
    FillPiece(", Fan:{fan_out}", ", Fan:", "fan_out", u.fanOut, t4, m);
    FillPiece(", TCP:{tcp_ratio}", ", TCP:", "tcp_ratio", u.tcpRatio, t5, m);
    FillPiece(", SYN:{syn_ratio}", ", SYN:", "syn_ratio", u.synRatio, t6, m);
    assert t6 + "" == t6;
    FillPiece(", RST:{rst_ratio}", ", RST:", "rst_ratio", u.rstRatio, "", m);
    NothingToFill(m);
  }

  lemma Pieces()
    ensures "User Data: PPS:{ul_log_pps}" == "User Data: PPS:" + Placeholder("ul_log_pps")
    ensures ", UL_Len:{ul_avg_len}" == ", UL_Len:" + Placeholder("ul_avg_len")
    ensures ", Flow:{new_flow_rate}" == ", Flow:" + Placeholder("new_flow_rate")
    ensures ", Fan:{fan_out}" == ", Fan:" + Placeholder("fan_out") && ", TCP:{tcp_ratio}" == ", TCP:" + Placeholder("tcp_ratio")
    ensures ", SYN:{syn_ratio}" == ", SYN:" + Placeholder("syn_ratio") && ", RST:{rst_ratio}" == ", RST:" + Placeholder("rst_ratio")
  {
  }

  lemma NothingToFill(m: map<string, string>)
    ensures Substitute("", m) == ""
  {
  }

  // ---------------------------------------------------------------- the user line

  /** The user line is the last line that begins with "User Data:", and the system lines are all the
      others, in their order. */
  lemma {:induction false} UserLineIsLast(before: seq<string>, line: string, after: seq<string>)
    requires "User Data:" <= line && forall l | l in after :: !("User Data:" <= l)
    ensures UserLine(before + [line] + after) == line
    ensures SystemLines(before + [line] + after) == SystemLines(before) + after
    decreases |after|
  {
    var all := before + [line] + after;
    if after == [] {
      assert all == before + [line];
      assert all[..|all| - 1] == before;
      IsTagged(line);
    } else {
      var front, last := after[..|after| - 1], after[|after| - 1];
      assert all[..|all| - 1] == before + [line] + front && all[|all| - 1] == last && last in after;
      forall l | l in front ensures !("User Data:" <= l) {
        assert l in after;
      }
      UserLineIsLast(before, line, front);
      IsTagged(last);
      assert after == front + [last];
    }
  }

  lemma IsTagged(l: string)
    ensures IsUserLine(l) <==> "User Data:" <= l
  {
  }

  /** Without such a line there is no user line, and all lines are system lines. */
  lemma {:induction false} NoUserLine(lines: seq<string>)
    requires forall l | l in lines :: !("User Data:" <= l)
    ensures UserLine(lines) == "" && SystemLines(lines) == lines
  {
    if lines != [] {
      var front, last := lines[..|lines| - 1], lines[|lines| - 1];
      assert last in lines && lines == front + [last];
      forall l | l in front ensures !("User Data:" <= l) {
        assert l in lines;
      }
      NoUserLine(front);
      IsTagged(last);
    }
  }
}
