/** `BuildSingleUEPrompt` (internal/analyzer/detector/llm_client.go:107-204): the passes over the
    system prompt, the split into system lines and the "User Data:" line, and the second round
    of passes over the user line. `fmt.Sprintf("%.2f", x)` is a parameter: the fields below hold
    its results. */
module PromptBuilder {
  import opened PromptTemplate
  import opened Wrappers

  datatype GlobalText = GlobalText(
    ulLogPps: string, newFlowRate: string, ulAvgLen: string, fanOut: string,
    dlLogPps: string, dlAvgLen: string, ppsRatio: string, byteRatio: string)

  datatype UeText = UeText(
    ulLogPps: string, dlLogPps: string, ulAvgLen: string, dlAvgLen: string,
    newFlowRate: string, fanOut: string, ppsRatio: string, byteRatio: string, ackRatio: string,
    tcpRatio: string, udpRatio: string, icmpRatio: string, synRatio: string, rstRatio: string)

  const NA := "N/A"
  const USER_TAG := "User Data:"
  const FALLBACK := "User Data: PPS:{ul_log_pps}" + (", UL_Len:{ul_avg_len}" + (", Flow:{new_flow_rate}" + (", Fan:{fan_out}"
                    + (", TCP:{tcp_ratio}" + (", SYN:{syn_ratio}" + ", RST:{rst_ratio}")))))

  function NotAvailable(): GlobalText {
    GlobalText(NA, NA, NA, NA, NA, NA, NA, NA)
  }

  /** The passes over the global placeholders, in call order. */
  function GlobalSubs(stats: Option<GlobalText>): seq<Sub> {
    var g := if stats.Some? then stats.value else NotAvailable();
    [ Sub("global_ul_log_pps", g.ulLogPps), Sub("global_new_flow_rate", g.newFlowRate),
      Sub("global_ul_avg_len", g.ulAvgLen), Sub("global_fan_out", g.fanOut),
      Sub("global_dl_log_pps", g.dlLogPps), Sub("global_dl_avg_len", g.dlAvgLen),
      Sub("global_pps_ratio", g.ppsRatio), Sub("global_byte_ratio", g.byteRatio) ]
  }

  /** The per-UE passes over the system prompt, in call order. */
  function UeSubs(u: UeText): seq<Sub> {
    VolumeSubs(u) + RatioSubs(u)
  }

  function VolumeSubs(u: UeText): seq<Sub> {
    [ Sub("ul_log_pps", u.ulLogPps), Sub("dl_log_pps", u.dlLogPps),
      Sub("ul_avg_len", u.ulAvgLen), Sub("dl_avg_len", u.dlAvgLen),
      Sub("new_flow_rate", u.newFlowRate), Sub("fan_out", u.fanOut) ]
  }

  function RatioSubs(u: UeText): seq<Sub> {
    [ Sub("pps_ratio", u.ppsRatio), Sub("byte_ratio", u.byteRatio), Sub("ack_ratio", u.ackRatio),
      Sub("tcp_ratio", u.tcpRatio), Sub("udp_ratio", u.udpRatio), Sub("icmp_ratio", u.icmpRatio),
      Sub("syn_ratio", u.synRatio), Sub("rst_ratio", u.rstRatio) ]
  }

  /** The passes over the user line, in call order. */
  function UserSubs(u: UeText): seq<Sub> {
    [ Sub("ul_log_pps", u.ulLogPps), Sub("ul_avg_len", u.ulAvgLen),
      Sub("new_flow_rate", u.newFlowRate), Sub("fan_out", u.fanOut),
      Sub("tcp_ratio", u.tcpRatio), Sub("syn_ratio", u.synRatio), Sub("rst_ratio", u.rstRatio),
      Sub("dl_log_pps", u.dlLogPps), Sub("dl_avg_len", u.dlAvgLen),
      Sub("pps_ratio", u.ppsRatio), Sub("byte_ratio", u.byteRatio), Sub("ack_ratio", u.ackRatio),
      Sub("udp_ratio", u.udpRatio), Sub("icmp_ratio", u.icmpRatio) ]
  }

  function SystemSubs(stats: Option<GlobalText>, u: UeText): seq<Sub> {
    GlobalSubs(stats) + UeSubs(u)
  }

  predicate KeyChar(c: char) {
    'a' <= c <= 'z' || c == '_'
  }

  predicate IsName(k: string) {
    forall c | c in k :: KeyChar(c)
  }

  /** Formatted numbers and "N/A": no brace, and a character no key has ('.', '/', 'N' or '+'). */
  ghost predicate Rendered(v: string) {
    BraceFree(v) && exists c :: c in v && !KeyChar(c)
  }

  ghost predicate AllRendered(subs: seq<Sub>) {
    forall s | s in subs :: Rendered(s.value)
  }

  ghost predicate AllNames(subs: seq<Sub>) {
    forall s | s in subs :: IsName(s.key)
  }

  lemma OccursElements(v: string, k: string)
    requires Occurs(v, k)
    ensures forall c | c in v :: c in k
  {
    var i :| OccursAt(k, v, i);
    assert k[i..i + |v|] == v;
  }

  lemma GlobalNames()
    ensures IsName("global_ul_log_pps") && IsName("global_new_flow_rate") && IsName("global_ul_avg_len")
    ensures IsName("global_fan_out") && IsName("global_dl_log_pps") && IsName("global_dl_avg_len")
    ensures IsName("global_pps_ratio") && IsName("global_byte_ratio")
  {
  }

  lemma VolumeNames()
    ensures IsName("ul_log_pps") && IsName("dl_log_pps") && IsName("ul_avg_len")
    ensures IsName("dl_avg_len") && IsName("new_flow_rate") && IsName("fan_out")
  {
  }

  lemma RatioNames()
    ensures IsName("pps_ratio") && IsName("byte_ratio") && IsName("ack_ratio")
    ensures IsName("tcp_ratio") && IsName("udp_ratio") && IsName("icmp_ratio")
    ensures IsName("syn_ratio") && IsName("rst_ratio")
  {
  }

  lemma GlobalKeysAreNames(stats: Option<GlobalText>)
    ensures AllNames(GlobalSubs(stats))
  {
    GlobalNames();
  }

  lemma VolumeKeysAreNames(u: UeText)
    ensures AllNames(VolumeSubs(u))
  {
    VolumeNames();
  }

  lemma RatioKeysAreNames(u: UeText)
    ensures AllNames(RatioSubs(u))
  {
    RatioNames();
  }

  /** The second round uses the same substitutions as the per-UE round of the first. */
  lemma UserSubsAreUeSubs(u: UeText)
    ensures forall s :: s in UserSubs(u) <==> s in UeSubs(u)
  {
  }

  /** Rendered values under lower-case keys meet the conditions of the chain theorems. */
  lemma RenderedIsInert(subs: seq<Sub>)
    requires AllRendered(subs) && AllNames(subs)
    ensures WellBraced(subs) && AllInert(subs) && Independent(subs)
  {
    forall i, j | 0 <= i < |subs| && 0 <= j < |subs| ensures !Occurs(subs[i].value, subs[j].key) {
      assert subs[i] in subs && subs[j] in subs;
      if Occurs(subs[i].value, subs[j].key) {
        OccursElements(subs[i].value, subs[j].key);
      }
    }
    forall i | 0 <= i < |subs| ensures BraceFree(subs[i].key) {
      assert subs[i] in subs && !KeyChar('{') && !KeyChar('}');
    }
  }

  // ---------------------------------------------------------------- the user line

  predicate IsUserLine(line: string) {
    |line| >= 10 && line[..10] == USER_TAG
  }

  function SystemLines(lines: seq<string>): seq<string> {
    if lines == [] then []
    else SystemLines(lines[..|lines| - 1]) +
         if IsUserLine(lines[|lines| - 1]) then [] else [lines[|lines| - 1]]
  }

  /** The last user line, or "" when there is none. */
  function UserLine(lines: seq<string>): (l: string)
    ensures l != "" ==> l in lines && IsUserLine(l)
    ensures l == "" ==> forall x | x in lines :: !IsUserLine(x)
  {
    if lines == [] then ""
    else if IsUserLine(lines[|lines| - 1]) then lines[|lines| - 1]
    else UserLine(lines[..|lines| - 1])
  }

  // ---------------------------------------------------------------- residue of the parts

  lemma NotInside(j: string, p: string, i: nat, k: nat)
    requires OccursAt(j, p, i) && '\n' !in p && k < |j| && j[k] == '\n'
    ensures k < i || i + |p| <= k
  {
    assert forall q | i <= q < i + |p| :: j[q] == j[i..i + |p|][q - i] && p[q - i] in p;
    assert forall q | i <= q < i + |p| :: j[q] != '\n';
  }

  /** A piece of text that holds no newline lies on one side of a newline. */
  lemma OccursOnOneSide(a: string, b: string, p: string)
    requires p != "" && '\n' !in p && Occurs(p, a + "\n" + b)
    ensures Occurs(p, a) || Occurs(p, b)
  {
    var j := a + "\n" + b;
    var i :| OccursAt(j, p, i);
    NotInside(j, p, i, |a|);
    if i + |p| <= |a| {
      assert a[i..i + |p|] == j[i..i + |p|];
      assert OccursAt(a, p, i);
    } else {
      var i' := i - |a| - 1;
      assert b[i'..i' + |p|] == j[i..i + |p|];
      assert OccursAt(b, p, i');
    }
  }

  /** A piece of text that holds no newline and lies in joined lines lies in one of the lines. */
  lemma {:induction false} OccursInOneLine(ls: seq<string>, p: string)
    requires p != "" && '\n' !in p && Occurs(p, Joined(ls))
    ensures exists i :: 0 <= i < |ls| && Occurs(p, ls[i])
  {
    if |ls| > 1 {
      OccursOnOneSide(ls[0], Joined(ls[1..]), p);
      if !Occurs(p, ls[0]) {
        OccursInOneLine(ls[1..], p);
        var k :| 0 <= k < |ls[1..]| && Occurs(p, ls[1..][k]);
        assert Occurs(p, ls[k + 1]);
      }
    }
  }

  lemma OccursTransitive(p: string, q: string, s: string)
    requires Occurs(p, q) && Occurs(q, s)
    ensures Occurs(p, s)
  {
    var i :| OccursAt(q, p, i);
    var j :| OccursAt(s, q, j);
    assert forall c | 0 <= c < |q| :: s[j + c] == s[j..j + |q|][c] == q[c];
    assert forall c | 0 <= c < |p| :: q[i + c] == q[i..i + |p|][c] == p[c];
    assert s[j + i..j + i + |p|] == p;
    assert OccursAt(s, p, j + i);
  }

  lemma {:induction false} LineOccursInText(ls: seq<string>, i: nat)
    requires i < |ls|
    ensures Occurs(ls[i], Joined(ls))
  {
    var j := Joined(ls);
    if i == 0 {
      assert j[0..|ls[0]|] == ls[0];
      assert OccursAt(j, ls[0], 0);
    } else {
      LineOccursInText(ls[1..], i - 1);
      var tail := Joined(ls[1..]);
      assert j == (ls[0] + "\n") + tail;
      assert j[|ls[0]| + 1..|ls[0]| + 1 + |tail|] == tail;
      assert OccursAt(j, tail, |ls[0]| + 1);
      OccursTransitive(ls[i], tail, j);
    }
  }

  predicate Ascii(t: string) {
    forall c | c in t :: c as int < 128
  }

  lemma {:induction false} ReencodedAt(t: string, p: string)
    requires p != "" && Ascii(p) && p <= Reencoded(t)
    ensures p <= t
  {
    var r := Reencoded(t);
    assert r[0] == p[0] && p[0] in p;
    assert Utf8(t[0]) == [t[0]] && r[1..] == Reencoded(t[1..]);
    if |p| > 1 {
      assert p[1..] <= r[1..];
      assert Ascii(p[1..]) by { assert forall c | c in p[1..] :: c in p; }
      ReencodedAt(t[1..], p[1..]);
    }
    assert p == [t[0]] + p[1..];
  }

  /** Re-encoding turns no text into an ASCII text. */
  lemma {:induction false} ReencodedHoldsNoMore(t: string, p: string, i: nat)
    requires p != "" && Ascii(p) && OccursAt(Reencoded(t), p, i)
    ensures Occurs(p, t)
  {
    if i == 0 {
      ReencodedAt(t, p);
      assert OccursAt(t, p, 0);
    } else {
      PastFirst(t[0], Reencoded(t[1..]), p, i);
      hide OccursAt, Ascii, Utf8, Occurs;
      ReencodedHoldsNoMore(t[1..], p, i - |Utf8(t[0])|);
      OccursInTail(p, t);
    }
  }

  /** An ASCII text does not start inside the encoding of a character. */
  lemma PastFirst(c: char, rest: string, p: string, i: nat)
    requires p != "" && Ascii(p) && i > 0 && OccursAt(Utf8(c) + rest, p, i)
    ensures i >= |Utf8(c)| && OccursAt(rest, p, i - |Utf8(c)|)
  {
    var w := Utf8(c);
    var r := w + rest;
    assert r[i] == p[0] && p[0] in p;
    assert r[|w|..] == rest;
    assert rest[i - |w|..i - |w| + |p|] == r[i..i + |p|];
  }

  lemma OccursInTail(p: string, t: string)
    requires t != "" && Occurs(p, t[1..])
    ensures Occurs(p, t)
  {
    assert t[1..1 + |t[1..]|] == t[1..];
    assert OccursAt(t, t[1..], 1);
    OccursTransitive(p, t[1..], t);
  }

  lemma PlaceholderIsAscii(k: string)
    requires IsName(k)
    ensures Ascii(Placeholder(k)) && '\n' !in Placeholder(k)
  {
    assert forall c | c in Placeholder(k) :: c == '{' || c == '}' || c in k;
    assert !KeyChar('\n');
  }

  /** A placeholder that lies in a line of the split text lies in the text. */
  lemma LineHoldsNoMore(text: string, line: string, k: string)
    requires line in Split(Reencoded(text)) && IsName(k) && Occurs(Placeholder(k), line)
    ensures Occurs(Placeholder(k), text)
  {
    var r := Reencoded(text);
    LineOccursInWhole(r, line);
    OccursTransitive(Placeholder(k), line, r);
    PlaceholderIsAscii(k);
    var j :| OccursAt(r, Placeholder(k), j);
    ReencodedHoldsNoMore(text, Placeholder(k), j);
  }

  lemma LineOccursInWhole(r: string, line: string)
    requires line in Split(r)
    ensures Occurs(line, r)
  {
    var ls := Split(r);
    var i :| 0 <= i < |ls| && ls[i] == line;
    LineOccursInText(ls, i);
    JoinOfSplit("", r);
    assert "" + r == r;
    hide Split, Joined;
    assert Joined(ls) == r[0..|Joined(ls)|];
    assert OccursAt(r, Joined(ls), 0);
    OccursTransitive(line, Joined(ls), r);
  }

  lemma {:induction false} SystemLinesAreLines(lines: seq<string>)
    ensures forall l | l in SystemLines(lines) :: l in lines && !IsUserLine(l)
  {
    if lines != [] {
      SystemLinesAreLines(lines[..|lines| - 1]);
    }
  }

  // ---------------------------------------------------------------- the method

  lemma {:induction false} ReencodedSize(t: string)
    ensures |Reencoded(t)| >= |t|
    ensures Ascii(t) ==> Reencoded(t) == t
    ensures !Ascii(t) ==> |Reencoded(t)| > |t|
  {
    if t != "" {
      ReencodedSize(t[1..]);
      assert t == [t[0]] + t[1..];
      assert t[0] in t && forall c | c in t[1..] :: c in t;
      if t[0] as int < 128 && Ascii(t[1..]) {
        assert forall c | c in t :: c == t[0] || c in t[1..];
        assert Ascii(t);
      }
    }
  }

  lemma {:induction false} ReencodedEnd(t: string)
    requires t != ""
    ensures Reencoded(t) != ""
    ensures Reencoded(t)[|Reencoded(t)| - 1] == '\n' <==> t[|t| - 1] == '\n'
  {
    if |t| > 1 {
      ReencodedEnd(t[1..]);
    }
  }

  /** Splitting a prompt and joining its lines gives the prompt back, up to a final newline,
      exactly when the prompt is ASCII: `string(text[i])` re-encodes every other byte. */
  lemma LinesSurviveExactly(t: string)
    ensures Joined(Split(Reencoded(t))) == WithoutFinalNewline(t) <==> Ascii(t)
  {
    LinesLoseFinalNewline(Reencoded(t));
    ReencodedSize(t);
    hide Joined, Split, Reencoded, Ascii, WithoutFinalNewline;
    if !Ascii(t) {
      LongerWithoutNewline(t);
    }
  }

  lemma LinesLoseFinalNewline(r: string)
    ensures Joined(Split(r)) == WithoutFinalNewline(r)
  {
    JoinOfSplit("", r);
    assert "" + r == r;
  }

  /** A re-encoding that grew is longer without its final newline, too. */
  lemma LongerWithoutNewline(t: string)
    requires |Reencoded(t)| > |t|
    ensures |WithoutFinalNewline(Reencoded(t))| > |WithoutFinalNewline(t)|
  {
    if t != "" {
      ReencodedEnd(t);
    }
  }

  /** A run of consecutive `replacePlaceholder` calls. */
  method ReplaceEach(text: string, subs: seq<Sub>) returns (r: string)
    ensures r == Chain(text, subs)
  {
    r := text;
    for i := 0 to |subs|
      invariant Chain(text, subs) == Chain(r, subs[i..])
    {
      r := ReplacePlaceholder(r, subs[i].key, subs[i].value);
      assert subs[i..][1..] == subs[i + 1..];
    }
  }

  /** The filled system prompt: every placeholder of the template replaced at once. */
  ghost function FilledPrompt(prompt: string, stats: Option<GlobalText>, u: UeText): string {
    Substitute(prompt, Meaning(SystemSubs(stats, u)))
  }

  lemma FilledByPasses(prompt: string, stats: Option<GlobalText>, u: UeText)
    requires AllRendered(SystemSubs(stats, u))
    ensures Chain(Chain(prompt, GlobalSubs(stats)), UeSubs(u)) == FilledPrompt(prompt, stats, u)
  {
    PassesMeetConditions(stats, u);
    ChainAppend(prompt, GlobalSubs(stats), UeSubs(u));
    ChainIsSimultaneous(prompt, SystemSubs(stats, u));
  }

  method SeparateUserLine(lines: seq<string>) returns (userDataTemplate: string, systemLines: seq<string>)
    ensures userDataTemplate == UserLine(lines) && systemLines == SystemLines(lines)
  {
    userDataTemplate, systemLines := "", [];
    for i := 0 to |lines|
      invariant systemLines == SystemLines(lines[..i]) && userDataTemplate == UserLine(lines[..i])
    {
      assert lines[..i + 1][..i] == lines[..i];
      if |lines[i]| >= 10 && lines[i][..10] == USER_TAG {
        userDataTemplate := lines[i];
      } else {
        systemLines := systemLines + [lines[i]];
      }
    }
    assert lines[..|lines|] == lines;
  }

  method BuildSingleUEPrompt(prompt: string, stats: Option<GlobalText>, u: UeText)
      returns (systemContent: string, userContent: string)
    requires AllRendered(SystemSubs(stats, u))
    ensures var lines := Split(Reencoded(FilledPrompt(prompt, stats, u)));
            && systemContent == Joined(SystemLines(lines))
            && userContent == if UserLine(lines) != "" then UserLine(lines)
                              else Substitute(FALLBACK, Meaning(UserSubs(u)))
    ensures forall k | k in Meaning(SystemSubs(stats, u)) :: !Occurs(Placeholder(k), systemContent)
    ensures forall k | k in Meaning(UserSubs(u)) :: !Occurs(Placeholder(k), userContent)
  {
    systemContent := ReplaceEach(prompt, GlobalSubs(stats));
    systemContent := ReplaceEach(systemContent, UeSubs(u));
    FilledByPasses(prompt, stats, u);
    var lines := SplitLines(systemContent);
    var userDataTemplate, systemLines := SeparateUserLine(lines);
    systemContent := JoinLines(systemLines);
    SystemHoldsNoPlaceholder(prompt, stats, u);
    userContent := if userDataTemplate != "" then userDataTemplate else FALLBACK;
    UserHoldsNoPlaceholder(prompt, stats, u, userContent);
    userContent := ReplaceEach(userContent, UserSubs(u));
  }

  lemma PassesMeetConditions(stats: Option<GlobalText>, u: UeText)
    requires AllRendered(SystemSubs(stats, u))
    ensures WellBraced(SystemSubs(stats, u)) && AllInert(SystemSubs(stats, u)) && Independent(SystemSubs(stats, u))
    ensures WellBraced(UserSubs(u)) && AllInert(UserSubs(u)) && Independent(UserSubs(u))
    ensures AllNames(SystemSubs(stats, u)) && AllNames(UserSubs(u))
  {
    GlobalKeysAreNames(stats);
    VolumeKeysAreNames(u);
    RatioKeysAreNames(u);
    UserSubsAreUeSubs(u);
    RenderedIsInert(SystemSubs(stats, u));
    RenderedIsInert(UserSubs(u));
  }

  lemma KeyIsName(subs: seq<Sub>, k: string)
    requires AllNames(subs) && k in Meaning(subs)
    ensures IsName(k)
  {
    MeaningKeys(subs);
  }

  lemma NoLineHoldsPlaceholder(prompt: string, stats: Option<GlobalText>, u: UeText, line: string, k: string)
    requires AllRendered(SystemSubs(stats, u)) && k in Meaning(SystemSubs(stats, u))
    requires line in Split(Reencoded(FilledPrompt(prompt, stats, u)))
    ensures !Occurs(Placeholder(k), line)
  {
    var subs := SystemSubs(stats, u);
    PassesMeetConditions(stats, u);
    KeyIsName(subs, k);
    ChainIsSimultaneous(prompt, subs);
    NothingLeft(prompt, subs, k);
    if Occurs(Placeholder(k), line) {
      LineHoldsNoMore(FilledPrompt(prompt, stats, u), line, k);
    }
  }

  lemma SystemHoldsNoPlaceholder(prompt: string, stats: Option<GlobalText>, u: UeText)
    requires AllRendered(SystemSubs(stats, u))
    ensures forall k | k in Meaning(SystemSubs(stats, u)) ::
              !Occurs(Placeholder(k), Joined(SystemLines(Split(Reencoded(FilledPrompt(prompt, stats, u))))))
  {
    var lines := Split(Reencoded(FilledPrompt(prompt, stats, u)));
    SystemLinesAreLines(lines);
    PassesMeetConditions(stats, u);
    forall k | k in Meaning(SystemSubs(stats, u)) ensures !Occurs(Placeholder(k), Joined(SystemLines(lines))) {
      KeyIsName(SystemSubs(stats, u), k);
      PlaceholderIsAscii(k);
      if Occurs(Placeholder(k), Joined(SystemLines(lines))) {
        OccursInOneLine(SystemLines(lines), Placeholder(k));
        var i :| 0 <= i < |SystemLines(lines)| && Occurs(Placeholder(k), SystemLines(lines)[i]);
        NoLineHoldsPlaceholder(prompt, stats, u, SystemLines(lines)[i], k);
      }
    }
  }

  lemma PrefixOccurs(p: string, t: string)
    ensures p <= t ==> Occurs(p, t)
  {
    if p <= t {
      assert OccursAt(t, p, 0);
    }
  }

  /** Placeholders that do not occur are not replaced. */
  lemma {:induction false} SubstituteWithoutHit(t: string, m: map<string, string>)
    requires BraceFreeKeys(m) && forall k | k in m :: !Occurs(Placeholder(k), t)
    ensures Substitute(t, m) == t
  {
    if t != "" {
      forall k | k in m ensures !(Placeholder(k) <= t) && !Occurs(Placeholder(k), t[1..]) {
        PrefixOccurs(Placeholder(k), t);
        if Occurs(Placeholder(k), t[1..]) {
          OccursInTail(Placeholder(k), t);
        }
      }
      hide Occurs, Placeholder;
      assert !Hit(t, m.Keys);
      SubstituteWithoutHit(t[1..], m);
    }
  }

  /** The second round leaves a user line of the filled prompt alone, and fills the fallback. */
  lemma UserHoldsNoPlaceholder(prompt: string, stats: Option<GlobalText>, u: UeText, template: string)
    requires AllRendered(SystemSubs(stats, u))
    requires template == FALLBACK || template in Split(Reencoded(FilledPrompt(prompt, stats, u)))
    ensures Chain(template, UserSubs(u)) == Substitute(template, Meaning(UserSubs(u)))
    ensures forall k | k in Meaning(UserSubs(u)) :: !Occurs(Placeholder(k), Substitute(template, Meaning(UserSubs(u))))
    ensures template in Split(Reencoded(FilledPrompt(prompt, stats, u)))
        ==> Substitute(template, Meaning(UserSubs(u))) == template
  {
    var m := Meaning(UserSubs(u));
    PassesMeetConditions(stats, u);
    UserSubsAreUeSubs(u);
    MeaningKeys(UserSubs(u));
    MeaningKeys(SystemSubs(stats, u));
    ChainIsSimultaneous(template, UserSubs(u));
    forall k | k in m ensures !Occurs(Placeholder(k), Substitute(template, m)) {
      NothingLeft(template, UserSubs(u), k);
    }
    if template in Split(Reencoded(FilledPrompt(prompt, stats, u))) {
      forall k | k in m ensures BraceFree(k) && !Occurs(Placeholder(k), template) {
        var i :| 0 <= i < |UserSubs(u)| && UserSubs(u)[i].key == k;
        assert UserSubs(u)[i] in SystemSubs(stats, u);
        NoLineHoldsPlaceholder(prompt, stats, u, template, k);
      }
      SubstituteWithoutHit(template, m);
    }
  }
}
