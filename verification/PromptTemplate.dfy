/** The placeholder engine of the LLM client (internal/analyzer/detector/llm_client.go).

    A prompt is built by replacing `{key}` by a value, one key after the other. The module
    relates that chain of passes to one simultaneous left-to-right substitution, and says
    exactly when the two agree. Strings are sequences of bytes, each held in one `char`. */
module PromptTemplate {

  // ---------------------------------------------------------------- occurrences

  predicate OccursAt(s: string, p: string, i: int) {
    0 <= i && i + |p| <= |s| && s[i..i + |p|] == p
  }

  ghost predicate Occurs(p: string, s: string) {
    exists i :: OccursAt(s, p, i)
  }

  predicate BraceFree(s: string) {
    '{' !in s && '}' !in s
  }

  function Placeholder(key: string): string {
    "{" + key + "}"
  }

  /** The leftmost occurrence of `substr`, or -1. */
  method IndexOf(s: string, substr: string) returns (r: int)
    ensures r == -1 ==> !Occurs(substr, s)
    ensures r != -1 ==> OccursAt(s, substr, r) && forall j | 0 <= j < r :: !OccursAt(s, substr, j)
    ensures -1 <= r
  {
    var i := 0;
    while i <= |s| - |substr|
      invariant 0 <= i
      invariant forall j | 0 <= j < i :: !OccursAt(s, substr, j)
    {
      if s[i..i + |substr|] == substr {
        return i;
      }
      i := i + 1;
    }
    return -1;
  }

  /** Leftmost non-overlapping replacement, the meaning of `ReplaceAllText`. */
  function Replaced(s: string, old_: string, new_: string): string
    requires old_ != ""
    decreases |s|
  {
    if s == "" then ""
    else if old_ <= s then new_ + Replaced(s[|old_|..], old_, new_)
    else [s[0]] + Replaced(s[1..], old_, new_)
  }

  lemma ReplacedCopiesFirst(s: string, old_: string, new_: string)
    requires old_ != "" && s != "" && !OccursAt(s, old_, 0)
    ensures Replaced(s, old_, new_) == [s[0]] + Replaced(s[1..], old_, new_)
  {
  }

  lemma OccursOneLater(s: string, p: string, j: nat)
    requires s != ""
    ensures OccursAt(s[1..], p, j) <==> OccursAt(s, p, j + 1)
  {
    if j + 1 + |p| <= |s| {
      assert s[1..][j..j + |p|] == s[j + 1..j + 1 + |p|];
    }
  }

  /** Text before the first occurrence is copied, the occurrence replaced, the rest is left to do. */
  lemma {:induction false} ReplacedSkips(s: string, old_: string, new_: string, i: nat)
    requires old_ != "" && i <= |s|
    requires forall j | 0 <= j < i :: !OccursAt(s, old_, j)
    ensures Replaced(s, old_, new_) == s[..i] + Replaced(s[i..], old_, new_)
  {
    if i == 0 {
      assert s[0..] == s;
    } else {
      assert !OccursAt(s, old_, 0);
      ReplacedCopiesFirst(s, old_, new_);
      forall j | 0 <= j < i - 1 ensures !OccursAt(s[1..], old_, j) {
        OccursOneLater(s, old_, j);
      }
      hide Replaced, OccursAt;
      ReplacedSkips(s[1..], old_, new_, i - 1);
      TakeOneMore(s, i, Replaced(s[i..], old_, new_));
    }
  }

  lemma TakeOneMore(s: string, i: nat, rest: string)
    requires 0 < i <= |s|
    ensures s[1..][i - 1..] == s[i..] && [s[0]] + (s[1..][..i - 1] + rest) == s[..i] + rest
  {
    assert s[..i] == [s[0]] + s[1..][..i - 1];
  }

  /** The loop of `replaceAll`; every round drops at least |old| characters of the text left to do. */
  method ReplaceAllText(text: string, old_: string, new_: string) returns (result: string)
    requires old_ != ""
    ensures result == Replaced(text, old_, new_)
  {
    result := "";
    var s := text;
    while true
      invariant Replaced(text, old_, new_) == result + Replaced(s, old_, new_)
      decreases |s|
    {
      var idx := IndexOf(s, old_);
      if idx == -1 {
        ReplacedSkips(s, old_, new_, |s|);
        result := result + s;
        return;
      }
      ReplacedSkips(s, old_, new_, idx);
      assert old_ <= s[idx..];
      assert s[idx..][|old_|..] == s[idx + |old_|..];
      assert result + (s[..idx] + (new_ + Replaced(s[idx + |old_|..], old_, new_)))
          == result + (s[..idx] + new_) + Replaced(s[idx + |old_|..], old_, new_);
      result := result + (s[..idx] + new_);
      s := s[idx + |old_|..];
    }
  }

  /** The leftmost occurrence from i on, or -1. */
  function Leftmost(s: string, p: string, i: nat): (r: int)
    ensures r == -1 ==> forall j | i <= j :: !OccursAt(s, p, j)
    ensures r != -1 ==> i <= r && OccursAt(s, p, r) && forall j | i <= j < r :: !OccursAt(s, p, j)
    decreases |s| - i
  {
    if i > |s| then -1 else if OccursAt(s, p, i) then i else Leftmost(s, p, i + 1)
  }

  /** The loop of `replaceAll`, left within n turns for whatever search text: each turn goes on with
      the text behind the leftmost occurrence. */
  predicate Ends(s: string, old_: string, n: nat)
    decreases n
  {
    var i := Leftmost(s, old_, 0);
    n > 0 && (i == -1 || Ends(s[i + |old_|..], old_, n - 1))
  }

  lemma {:induction false} EmptyNeverEnds(s: string, n: nat)
    ensures !Ends(s, "", n)
    decreases n
  {
    if n > 0 {
      assert OccursAt(s, "", 0);
      assert s[0..] == s;
      EmptyNeverEnds(s, n - 1);
    }
  }

  lemma {:induction false} EndsInTime(s: string, old_: string, n: nat)
    requires old_ != "" && |s| < n
    ensures Ends(s, old_, n)
    decreases n
  {
    var i := Leftmost(s, old_, 0);
    if i != -1 {
      EndsInTime(s[i + |old_|..], old_, n - 1);
    }
  }

  /** The loop terminates, on every text, exactly when the search text is not empty: then within one
      turn more than the text has characters, otherwise never. */
  lemma EndsExactly(s: string, old_: string)
    ensures old_ != "" ==> Ends(s, old_, |s| + 1)
    ensures old_ == "" ==> forall n: nat :: !Ends(s, old_, n)
  {
    if old_ == "" {
      forall n: nat ensures !Ends(s, old_, n) {
        EmptyNeverEnds(s, n);
      }
    } else {
      EndsInTime(s, old_, |s| + 1);
    }
  }

  method ReplacePlaceholder(text: string, key: string, value: string) returns (r: string)
    ensures r == Replaced(text, Placeholder(key), value)
  {
    r := ReplaceAllText(text, Placeholder(key), value);
  }

  // ---------------------------------------------------------------- simultaneous substitution

  ghost predicate Hit(t: string, keys: set<string>) {
    exists k :: k in keys && Placeholder(k) <= t
  }

  ghost function KeyAt(t: string, keys: set<string>): (k: string)
    requires Hit(t, keys)
    ensures k in keys && Placeholder(k) <= t
  {
    var k :| k in keys && Placeholder(k) <= t;
    k
  }

  /** All placeholders replaced in one left-to-right scan of the template itself. */
  ghost function Substitute(t: string, m: map<string, string>): string
    decreases |t|
  {
    if t == "" then ""
    else if Hit(t, m.Keys) then
      var k := KeyAt(t, m.Keys);
      m[k] + Substitute(t[|k| + 2..], m)
    else [t[0]] + Substitute(t[1..], m)
  }

  ghost predicate BraceFreeKeys(m: map<string, string>) {
    forall k | k in m :: BraceFree(k)
  }

  /** Values that stay inert inside any placeholder: brace-free, and part of no key. */
  ghost predicate Inert(v: string, keys: set<string>) {
    BraceFree(v) && forall k | k in keys :: !Occurs(v, k)
  }

  lemma FirstClosingBrace(t: string, k: string)
    requires BraceFree(k) && Placeholder(k) <= t
    ensures t[|k| + 1] == '}'
    ensures forall i | 0 <= i <= |k| :: t[i] != '}' && (i > 0 ==> t[i] != '{')
  {
    assert forall i | 0 <= i < |k| + 2 :: t[i] == Placeholder(k)[i];
  }

  /** Brace-free keys make the placeholder at a position unique. */
  lemma UniqueKey(t: string, k: string, k': string)
    requires BraceFree(k) && BraceFree(k')
    requires Placeholder(k) <= t && Placeholder(k') <= t
    ensures k == k'
  {
    FirstClosingBrace(t, k);
    FirstClosingBrace(t, k');
    assert k == t[1..|k| + 1] == k';
  }

  lemma SubstituteHit(t: string, m: map<string, string>, k: string)
    requires BraceFreeKeys(m) && k in m && Placeholder(k) <= t
    ensures Substitute(t, m) == m[k] + Substitute(t[|k| + 2..], m)
  {
    assert Hit(t, m.Keys);
    UniqueKey(t, k, KeyAt(t, m.Keys));
  }

  /** Text without an opening brace is copied. */
  lemma {:induction false} SubstituteCopies(w: string, t: string, m: map<string, string>)
    requires '{' !in w
    ensures Substitute(w + t, m) == w + Substitute(t, m)
  {
    if w == "" {
      assert w + t == t;
    } else {
      assert (w + t)[0] == w[0];
      assert (w + t)[1..] == w[1..] + t;
      SubstituteCopies(w[1..], t, m);
    }
  }

  lemma {:induction false} SubstituteNothing(t: string)
    ensures Substitute(t, map[]) == t
  {
    if t != "" {
      SubstituteNothing(t[1..]);
    }
  }

  lemma {:induction false} ReplacedIsSubstitute(t: string, k: string, v: string)
    requires BraceFree(k)
    ensures Replaced(t, Placeholder(k), v) == Substitute(t, map[k := v])
    decreases |t|
  {
    if t != "" {
      if Placeholder(k) <= t {
        SubstituteHit(t, map[k := v], k);
        ReplacedIsSubstitute(t[|k| + 2..], k, v);
      } else {
        ReplacedIsSubstitute(t[1..], k, v);
      }
    }
  }

  /** A brace-free text in front of which `w}` starts as well lies inside `w`. */
  lemma ValueInsideRun(out: string, v: string, w: string)
    requires BraceFree(v) && v <= out && w + "}" <= out
    ensures Occurs(v, w)
  {
    assert out[|w|] == (w + "}")[|w|] == '}';
    assert forall i | 0 <= i < |v| :: out[i] == v[i] && v[i] in v;
    assert w[..|v|] == out[..|v|] == v;
    assert OccursAt(w, v, 0);
  }

  /** A run `w}` in the output that holds no substituted value was already in the template. */
  lemma {:induction false} TailComesFromTemplate(t: string, m: map<string, string>, w: string)
    requires BraceFreeKeys(m)
    requires forall k | k in m :: BraceFree(m[k]) && !Occurs(m[k], w)
    requires w + "}" <= Substitute(t, m)
    ensures w + "}" <= t
  {
    var out := Substitute(t, m);
    if Hit(t, m.Keys) {
      ValueInsideRun(out, m[KeyAt(t, m.Keys)], w);
      assert false;
    } else if w == "" {
      assert out[0] == (w + "}")[0] == '}';
    } else {
      var rest := w[1..];
      assert out[0] == t[0] == w[0];
      assert rest + "}" <= out[1..];
      forall k | k in m ensures !Occurs(m[k], rest) {
        if i :| OccursAt(rest, m[k], i) {
          assert w[i + 1..i + 1 + |m[k]|] == rest[i..i + |m[k]|];
          assert OccursAt(w, m[k], i + 1);
        }
      }
      TailComesFromTemplate(t[1..], m, rest);
      assert w + "}" == [t[0]] + (rest + "}");
    }
  }

  /** Substituting inert values creates no placeholder at the head of the text. */
  lemma HitComesFromTemplate(t: string, m: map<string, string>, keys: set<string>)
    requires BraceFreeKeys(m) && forall k | k in m :: Inert(m[k], keys)
    requires t != "" && !Hit(t, m.Keys) && Hit(Substitute(t, m), keys)
    ensures Hit(t, keys)
  {
    var out := Substitute(t, m);
    var k' := KeyAt(out, keys);
    assert out[1..][..|k'| + 1] == Placeholder(k')[1..] == k' + "}";
    TailComesFromTemplate(t[1..], m, k');
    assert t == [out[0]] + t[1..] && out[0] == Placeholder(k')[0];
    assert Placeholder(k') == ['{'] + (k' + "}");
  }

  /** Replacing one key first and the others afterwards is replacing them all at once. */
  lemma {:induction false} Fusion(t: string, k: string, v: string, m: map<string, string>)
    requires BraceFree(k) && BraceFreeKeys(m) && Inert(v, m.Keys)
    ensures Substitute(Substitute(t, map[k := v]), m) == Substitute(t, m[k := v])
    decreases |t|
  {
    var one, all := map[k := v], m[k := v];
    if t == "" {
    } else if Placeholder(k) <= t {
      var rest := t[|k| + 2..];
      SubstituteHit(t, one, k);
      SubstituteHit(t, all, k);
      SubstituteCopies(v, Substitute(rest, one), m);
      Fusion(rest, k, v, m);
    } else if Hit(t, m.Keys) {
      var k' := KeyAt(t, m.Keys);
      FusionOther(t, k, v, m, k');
    } else {
      FusionLiteral(t, k, v, m);
    }
  }

  lemma {:induction false} FusionOther(t: string, k: string, v: string, m: map<string, string>, k': string)
    requires BraceFree(k) && BraceFreeKeys(m) && Inert(v, m.Keys)
    requires k' in m && Placeholder(k') <= t && !(Placeholder(k) <= t)
    ensures Substitute(Substitute(t, map[k := v]), m) == Substitute(t, m[k := v])
    decreases |t|, 0
  {
    var one, all := map[k := v], m[k := v];
    var rest := t[|k'| + 2..];
    assert t[1..] == (k' + "}") + rest;
    SubstituteCopies(k' + "}", rest, one);
    var mid := Substitute(t, one);
    assert mid == ['{'] + ((k' + "}") + Substitute(rest, one));
    assert mid[..|k'| + 2] == Placeholder(k') && mid[|k'| + 2..] == Substitute(rest, one);
    SubstituteHit(mid, m, k');
    SubstituteHit(t, all, k');
    Fusion(rest, k, v, m);
  }

  lemma {:induction false} FusionLiteral(t: string, k: string, v: string, m: map<string, string>)
    requires BraceFree(k) && BraceFreeKeys(m) && Inert(v, m.Keys)
    requires t != "" && !(Placeholder(k) <= t) && !Hit(t, m.Keys)
    ensures Substitute(Substitute(t, map[k := v]), m) == Substitute(t, m[k := v])
    decreases |t|, 0
  {
    var one, all := map[k := v], m[k := v];
    var mid := Substitute(t, one);
    assert mid == [t[0]] + Substitute(t[1..], one);
    assert !Hit(mid, m.Keys) by {
      if Hit(mid, m.Keys) {
        HitComesFromTemplate(t, one, m.Keys);
      }
    }
    assert !Hit(t, all.Keys);
    Fusion(t[1..], k, v, m);
  }

  // ---------------------------------------------------------------- the chain of passes

  datatype Sub = Sub(key: string, value: string)

  /** The passes in call order. */
  function Chain(t: string, subs: seq<Sub>): string
    decreases |subs|
  {
    if subs == [] then t
    else Chain(Replaced(t, Placeholder(subs[0].key), subs[0].value), subs[1..])
  }

  /** What each key stands for; of two passes for one key the earlier wins. */
  function Meaning(subs: seq<Sub>): map<string, string> {
    if subs == [] then map[] else Meaning(subs[1..])[subs[0].key := subs[0].value]
  }

  ghost predicate WellBraced(subs: seq<Sub>) {
    forall i | 0 <= i < |subs| :: BraceFree(subs[i].key) && BraceFree(subs[i].value)
  }

  /** No value is part of a key that is replaced later. */
  ghost predicate Independent(subs: seq<Sub>) {
    forall i, j | 0 <= i < j < |subs| :: !Occurs(subs[i].value, subs[j].key)
  }

  lemma {:induction false} MeaningKeys(subs: seq<Sub>)
    ensures forall k :: k in Meaning(subs) <==> exists i :: 0 <= i < |subs| && subs[i].key == k
    ensures forall k | k in Meaning(subs) :: Sub(k, Meaning(subs)[k]) in subs
  {
    if subs != [] {
      MeaningKeys(subs[1..]);
      forall k ensures k in Meaning(subs) <==> exists i :: 0 <= i < |subs| && subs[i].key == k {
        if i :| 0 <= i < |subs| && subs[i].key == k {
          if i > 0 {
            assert subs[1..][i - 1].key == k;
          }
        }
        if k in Meaning(subs) && k != subs[0].key {
          assert k in Meaning(subs[1..]);
          var i :| 0 <= i < |subs[1..]| && subs[1..][i].key == k;
          assert subs[i + 1].key == k;
        }
      }
    }
  }

  lemma {:induction false} ChainIsSimultaneous(t: string, subs: seq<Sub>)
    requires WellBraced(subs) && Independent(subs)
    ensures Chain(t, subs) == Substitute(t, Meaning(subs))
    decreases |subs|
  {
    if subs == [] {
      SubstituteNothing(t);
    } else {
      var first, rest := subs[0], subs[1..];
      var m := Meaning(rest);
      MeaningKeys(rest);
      forall k | k in m ensures BraceFree(k) && !Occurs(first.value, k) {
        var i :| 0 <= i < |rest| && rest[i].key == k;
        assert subs[i + 1].key == k;
      }
      ReplacedIsSubstitute(t, first.key, first.value);
      ChainIsSimultaneous(Substitute(t, map[first.key := first.value]), rest);
      Fusion(t, first.key, first.value, m);
    }
  }

  // ---------------------------------------------------------------- when the chain goes wrong

  ghost predicate DistinctKeys(subs: seq<Sub>) {
    forall i, j | 0 <= i < j < |subs| :: subs[i].key != subs[j].key
  }

  lemma {:induction false} ChainAppend(t: string, a: seq<Sub>, b: seq<Sub>)
    ensures Chain(t, a + b) == Chain(Chain(t, a), b)
    decreases |a|
  {
    if a == [] {
      assert a + b == b;
    } else {
      assert (a + b)[0] == a[0] && (a + b)[1..] == a[1..] + b;
      ChainAppend(Replaced(t, Placeholder(a[0].key), a[0].value), a[1..], b);
    }
  }

  lemma {:induction false} ChainFixes(t: string, subs: seq<Sub>)
    requires WellBraced(subs)
    requires forall i | 0 <= i < |subs| :: Substitute(t, map[subs[i].key := subs[i].value]) == t
    ensures Chain(t, subs) == t
  {
    if subs != [] {
      ReplacedIsSubstitute(t, subs[0].key, subs[0].value);
      ChainFixes(t, subs[1..]);
    }
  }

  function Nested(a: string, k: string, b: string): string {
    ['{'] + (a + (Placeholder(k) + (b + "}")))
  }

  /** A placeholder inside braces that are not its own. */
  lemma SubstituteNested(a: string, k: string, b: string, m: map<string, string>)
    requires BraceFree(a) && BraceFree(k) && BraceFree(b) && BraceFreeKeys(m)
    ensures Substitute(Nested(a, k, b), m)
         == if k in m then ['{'] + (a + (m[k] + (b + "}"))) else Nested(a, k, b)
  {
    var t := Nested(a, k, b);
    var inner := Placeholder(k) + (b + "}");
    assert t[|a| + 1] == '{' && t[|a| + |k| + 2] == '}';
    assert forall i | 0 <= i < |a| + |k| + 2 :: t[i] != '}';
    assert !Hit(t, m.Keys) by {
      if Hit(t, m.Keys) {
        FirstClosingBrace(t, KeyAt(t, m.Keys));
      }
    }
    assert t[1..] == a + inner;
    SubstituteCopies(a, inner, m);
    assert Placeholder(k) <= inner;
    if k in m {
      SubstituteHit(inner, m, k);
      assert inner[|k| + 2..] == (b + "}") + "";
      SubstituteCopies(b + "}", "", m);
      assert (b + "}") + "" == b + "}";
    } else {
      assert !Hit(inner, m.Keys) by {
        if Hit(inner, m.Keys) {
          UniqueKey(inner, k, KeyAt(inner, m.Keys));
        }
      }
      assert inner[1..] == (k + "}" + b + "}") + "";
      SubstituteCopies(k + "}" + b + "}", "", m);
      assert inner == ['{'] + inner[1..];
    }
  }

  lemma SubstitutePlaceholder(k: string, m: map<string, string>)
    requires BraceFree(k) && BraceFreeKeys(m)
    ensures Substitute(Placeholder(k), m) == if k in m then m[k] else Placeholder(k)
  {
    var t := Placeholder(k);
    if k in m {
      SubstituteHit(t, m, k);
      assert t[|k| + 2..] == "";
    } else {
      assert !Hit(t, m.Keys) by {
        if Hit(t, m.Keys) {
          UniqueKey(t, k, KeyAt(t, m.Keys));
        }
      }
      assert t[1..] == (k + "}") + "";
      SubstituteCopies(k + "}", "", m);
    }
  }

  lemma SubstituteBraceFree(t: string, m: map<string, string>)
    requires BraceFree(t)
    ensures Substitute(t, m) == t
  {
    assert t + "" == t;
    SubstituteCopies(t, "", m);
  }

  lemma {:induction false} MeaningOfDistinct(subs: seq<Sub>, i: nat)
    requires DistinctKeys(subs) && i < |subs|
    ensures subs[i].key in Meaning(subs) && Meaning(subs)[subs[i].key] == subs[i].value
  {
    if i > 0 {
      MeaningOfDistinct(subs[1..], i - 1);
    }
  }

  function Filled(a: string, v: string, b: string): string {
    ['{'] + (a + (v + (b + "}")))
  }

  /** Only the pass for its own key touches a nested placeholder. */
  lemma {:induction false} ChainOfNested(subs: seq<Sub>, i: nat, a: string, b: string)
    requires WellBraced(subs) && DistinctKeys(subs) && i < |subs| && BraceFree(a) && BraceFree(b)
    ensures Chain(Nested(a, subs[i].key, b), subs) == Chain(Filled(a, subs[i].value, b), subs[i + 1..])
  {
    var t := Nested(a, subs[i].key, b);
    SubstituteNested(a, subs[i].key, b, map[subs[0].key := subs[0].value]);
    ReplacedIsSubstitute(t, subs[0].key, subs[0].value);
    if i > 0 {
      ChainOfNested(subs[1..], i - 1, a, b);
      assert subs[1..][i..] == subs[i + 1..];
    }
  }

  lemma {:induction false} ChainOfPlaceholder(subs: seq<Sub>, j: nat)
    requires WellBraced(subs) && DistinctKeys(subs) && j < |subs|
    ensures Chain(Placeholder(subs[j].key), subs) == subs[j].value
  {
    var t := Placeholder(subs[j].key);
    SubstitutePlaceholder(subs[j].key, map[subs[0].key := subs[0].value]);
    ReplacedIsSubstitute(t, subs[0].key, subs[0].value);
    if j > 0 {
      ChainOfPlaceholder(subs[1..], j - 1);
    } else {
      ChainOfBraceFree(subs[0].value, subs[1..]);
    }
  }

  lemma ChainOfBraceFree(v: string, subs: seq<Sub>)
    requires WellBraced(subs) && BraceFree(v)
    ensures Chain(v, subs) == v
  {
    hide Substitute, Chain;
    forall q | 0 <= q < |subs| ensures Substitute(v, map[subs[q].key := subs[q].value]) == v {
      SubstituteBraceFree(v, map[subs[q].key := subs[q].value]);
    }
    ChainFixes(v, subs);
  }

  /** A value that is part of a later key: on this template the chain builds and then fills a
      placeholder that the template never held. */
  lemma DependentPairBreaks(subs: seq<Sub>, i: nat, j: nat) returns (t: string)
    requires WellBraced(subs) && DistinctKeys(subs)
    requires i < j < |subs| && Occurs(subs[i].value, subs[j].key)
    ensures Chain(t, subs) != Substitute(t, Meaning(subs))
  {
    var kj, vi := subs[j].key, subs[i].value;
    var p :| OccursAt(kj, vi, p);
    var a, b := kj[..p], kj[p + |vi|..];
    t := Nested(a, subs[i].key, b);
    assert Filled(a, vi, b) == Placeholder(kj) by {
      assert kj == a + vi + b;
    }
    hide *;
    Unnested(subs, i, j, a, b);
    StaysBraced(subs, i, a, b);
    NotBraced(subs[j].value, a + (vi + (b + "}")));
    ValuesAreBraceFree(subs, j);
  }

  lemma ValuesAreBraceFree(subs: seq<Sub>, j: nat)
    requires WellBraced(subs) && j < |subs|
    ensures BraceFree(subs[j].value)
  {
  }

  /** What the chain makes of the nested placeholder. */
  lemma Unnested(subs: seq<Sub>, i: nat, j: nat, a: string, b: string)
    requires WellBraced(subs) && DistinctKeys(subs) && i < j < |subs| && BraceFree(a) && BraceFree(b)
    requires Filled(a, subs[i].value, b) == Placeholder(subs[j].key)
    ensures Chain(Nested(a, subs[i].key, b), subs) == subs[j].value
  {
    hide *;
    ChainOfNested(subs, i, a, b);
    SuffixKeeps(subs, i + 1);
    ChainOfPlaceholder(subs[i + 1..], j - i - 1);
  }

  lemma SuffixKeeps(subs: seq<Sub>, n: nat)
    requires WellBraced(subs) && DistinctKeys(subs) && n <= |subs|
    ensures WellBraced(subs[n..]) && DistinctKeys(subs[n..])
  {
    hide BraceFree;
  }

  /** What the simultaneous substitution makes of it. */
  lemma StaysBraced(subs: seq<Sub>, i: nat, a: string, b: string)
    requires WellBraced(subs) && DistinctKeys(subs) && i < |subs| && BraceFree(a) && BraceFree(b)
    ensures Substitute(Nested(a, subs[i].key, b), Meaning(subs)) == ['{'] + (a + (subs[i].value + (b + "}")))
  {
    MeaningKeys(subs);
    hide Substitute, Meaning, Nested;
    MeaningOfDistinct(subs, i);
    SubstituteNested(a, subs[i].key, b, Meaning(subs));
  }

  lemma NotBraced(v: string, w: string)
    requires BraceFree(v)
    ensures v != ['{'] + w
  {
    assert (['{'] + w)[0] == '{';
  }

  /** The chain is the simultaneous substitution on every template exactly when no value is
      part of a key that is replaced later. */
  lemma ChainExact(subs: seq<Sub>)
    requires WellBraced(subs) && DistinctKeys(subs)
    ensures (forall t :: Chain(t, subs) == Substitute(t, Meaning(subs))) <==> Independent(subs)
  {
    if Independent(subs) {
      forall t ensures Chain(t, subs) == Substitute(t, Meaning(subs)) {
        ChainIsSimultaneous(t, subs);
      }
    } else {
      var i, j :| 0 <= i < j < |subs| && Occurs(subs[i].value, subs[j].key);
      var t := DependentPairBreaks(subs, i, j);
    }
  }

  // ---------------------------------------------------------------- order and residue

  /** Every value is inert inside every key. */
  ghost predicate AllInert(subs: seq<Sub>) {
    forall i, j | 0 <= i < |subs| && 0 <= j < |subs| :: !Occurs(subs[i].value, subs[j].key)
  }

  /** Two passes for one key carry the same value. */
  ghost predicate Functional(subs: seq<Sub>) {
    forall s, s' | s in subs && s' in subs && s.key == s'.key :: s == s'
  }

  lemma {:induction false} MeaningOfFunctional(subs: seq<Sub>, s: Sub)
    requires Functional(subs)
    ensures s in subs <==> s.key in Meaning(subs) && Meaning(subs)[s.key] == s.value
  {
    if subs != [] {
      assert subs[0] in subs;
      assert forall x | x in subs[1..] :: x in subs;
      MeaningOfFunctional(subs[1..], s);
      assert s in subs <==> s == subs[0] || s in subs[1..];
    }
  }

  lemma MeaningIncluded(a: seq<Sub>, b: seq<Sub>, k: string)
    requires Functional(a) && Functional(b) && (forall s | s in a :: s in b) && k in Meaning(a)
    ensures k in Meaning(b) && Meaning(b)[k] == Meaning(a)[k]
  {
    MeaningOfFunctional(a, Sub(k, Meaning(a)[k]));
    MeaningOfFunctional(b, Sub(k, Meaning(a)[k]));
  }

  lemma MeaningOfSameSubs(a: seq<Sub>, b: seq<Sub>)
    requires Functional(a) && forall s :: s in a <==> s in b
    ensures Meaning(a) == Meaning(b)
  {
    forall k | k in Meaning(a) ensures k in Meaning(b) && Meaning(b)[k] == Meaning(a)[k] {
      MeaningIncluded(a, b, k);
    }
    forall k | k in Meaning(b) ensures k in Meaning(a) {
      MeaningIncluded(b, a, k);
    }
  }

  /** The order of the passes does not matter, nor does repeating one. */
  lemma OrderIrrelevant(t: string, a: seq<Sub>, b: seq<Sub>)
    requires WellBraced(a) && AllInert(a) && Functional(a)
    requires forall s :: s in a <==> s in b
    ensures Chain(t, a) == Chain(t, b)
  {
    forall i | 0 <= i < |b| ensures b[i] in a {
      assert b[i] in b;
    }
    ChainIsSimultaneous(t, a);
    ChainIsSimultaneous(t, b);
    MeaningOfSameSubs(a, b);
  }

  lemma OccursBehind(w: string, s: string, p: string)
    requires p != "" && p[0] !in w && Occurs(p, w + s)
    ensures Occurs(p, s)
  {
    var i :| OccursAt(w + s, p, i);
    assert (w + s)[i] == p[0];
    assert i >= |w|;
    assert s[i - |w|..i - |w| + |p|] == (w + s)[i..i + |p|];
    assert OccursAt(s, p, i - |w|);
  }

  lemma {:induction false} NothingLeftBySubstitute(t: string, m: map<string, string>, k: string)
    requires BraceFreeKeys(m) && k in m && forall q | q in m :: Inert(m[q], m.Keys)
    ensures !Occurs(Placeholder(k), Substitute(t, m))
    decreases |t|
  {
    var out, p := Substitute(t, m), Placeholder(k);
    if t == "" {
    } else if Hit(t, m.Keys) {
      var q := KeyAt(t, m.Keys);
      NothingLeftBySubstitute(t[|q| + 2..], m, k);
      if Occurs(p, out) { OccursBehind(m[q], Substitute(t[|q| + 2..], m), p); }
    } else {
      NothingLeftBySubstitute(t[1..], m, k);
      if i :| OccursAt(out, p, i) {
        if i == 0 {
          assert p <= out && Hit(out, m.Keys);
          HitComesFromTemplate(t, m, m.Keys);
        } else {
          assert out[1..][i - 1..i - 1 + |p|] == out[i..i + |p|];
          assert OccursAt(out[1..], p, i - 1);
        }
      }
    }
  }

  lemma NothingLeft(t: string, subs: seq<Sub>, k: string)
    requires WellBraced(subs) && AllInert(subs) && k in Meaning(subs)
    ensures !Occurs(Placeholder(k), Chain(t, subs))
  {
    var m := Meaning(subs);
    MeaningKeys(subs);
    forall q | q in m ensures BraceFree(q) && Inert(m[q], m.Keys) {
      var i :| 0 <= i < |subs| && subs[i] == Sub(q, m[q]);
      forall q' | q' in m ensures !Occurs(m[q], q') {
        var j :| 0 <= j < |subs| && subs[j].key == q';
      }
    }
    ChainIsSimultaneous(t, subs);
    NothingLeftBySubstitute(t, m, k);
  }

  // ---------------------------------------------------------------- lines

  /** Go's `string(b)` of one byte: its UTF-8 encoding as a code point. */
  function Utf8(c: char): string {
    if c as int < 128 then [c] else [(0xC0 + c as int / 64) as char, (0x80 + c as int % 64) as char]
  }

  /** The two bytes of a character from 0x80 to 0x7FF, decoded as RFC 3629 does, give it back. */
  lemma Utf8Decodes(c: char)
    requires 0x80 <= c as int < 0x800
    ensures |Utf8(c)| == 2
    ensures 0xC2 <= Utf8(c)[0] as int < 0xE0 && 0x80 <= Utf8(c)[1] as int < 0xC0
    ensures (Utf8(c)[0] as int - 0xC0) * 64 + (Utf8(c)[1] as int - 0x80) == c as int
  {
  }

  function Reencoded(t: string): string {
    if t == "" then "" else Utf8(t[0]) + Reencoded(t[1..])
  }

  function SplitFrom(current: string, t: string): seq<string>
    decreases |t|
  {
    if t == "" then (if current == "" then [] else [current])
    else if t[0] == '\n' then [current] + SplitFrom("", t[1..])
    else SplitFrom(current + [t[0]], t[1..])
  }

  function Split(t: string): seq<string> {
    SplitFrom("", t)
  }

  function Joined(ls: seq<string>): string {
    if ls == [] then ""
    else if |ls| == 1 then ls[0]
    else ls[0] + "\n" + Joined(ls[1..])
  }

  function WithoutFinalNewline(t: string): string {
    if t != "" && t[|t| - 1] == '\n' then t[..|t| - 1] else t
  }

  lemma {:induction false} SplitFromRun(current: string, w: string, t: string)
    requires '\n' !in w
    ensures SplitFrom(current, w + t) == SplitFrom(current + w, t)
    decreases |w|
  {
    if w == "" {
      assert w + t == t && current + w == current;
    } else {
      assert (w + t)[1..] == w[1..] + t;
      SplitFromRun(current + [w[0]], w[1..], t);
      assert current + [w[0]] + w[1..] == current + w;
    }
  }

  method SplitLines(text: string) returns (lines: seq<string>)
    ensures lines == Split(Reencoded(text))
  {
    lines := [];
    var current := "";
    for i := 0 to |text|
      invariant Split(Reencoded(text)) == lines + SplitFrom(current, Reencoded(text[i..]))
    {
      assert text[i..][1..] == text[i + 1..];
      if text[i] == '\n' {
        lines := lines + [current];
        current := "";
      } else {
        SplitFromRun(current, Utf8(text[i]), Reencoded(text[i + 1..]));
        current := current + Utf8(text[i]);
      }
    }
    if current != "" {
      lines := lines + [current];
    }
  }

  lemma {:induction false} JoinedSnoc(ls: seq<string>, l: string)
    ensures Joined(ls + [l]) == if ls == [] then l else Joined(ls) + "\n" + l
  {
    if |ls| > 1 {
      JoinedSnoc(ls[1..], l);
      assert (ls + [l])[1..] == ls[1..] + [l];
    } else if |ls| == 1 {
      assert (ls + [l])[1..] == [l];
    }
  }

  method JoinLines(lines: seq<string>) returns (result: string)
    ensures result == Joined(lines)
  {
    result := "";
    for i := 0 to |lines|
      invariant result == Joined(lines[..i]) + if 0 < i < |lines| then "\n" else ""
    {
      JoinedSnoc(lines[..i], lines[i]);
      assert lines[..i + 1] == lines[..i] + [lines[i]];
      result := result + lines[i];
      if i < |lines| - 1 {
        result := result + "\n";
      }
    }
    assert lines[..|lines|] == lines;
  }

  lemma JoinedCons(l: string, ls: seq<string>)
    ensures Joined([l] + ls) == if ls == [] then l else l + "\n" + Joined(ls)
  {
    assert ([l] + ls)[1..] == ls;
  }

  lemma WithoutFinalNewlineOf(current: string, rest: string)
    requires '\n' !in current
    ensures WithoutFinalNewline(current + "\n" + rest)
         == if rest == "" then current else current + "\n" + WithoutFinalNewline(rest)
  {
    var t := current + "\n" + rest;
    if rest != "" {
      assert t[|t| - 1] == rest[|rest| - 1];
      assert t[..|t| - 1] == current + "\n" + rest[..|rest| - 1];
    } else {
      assert t[..|t| - 1] == current;
    }
  }

  /** Joining the lines of a text gives the text back, up to one final newline. */
  lemma {:induction false} JoinOfSplit(current: string, t: string)
    requires '\n' !in current
    ensures Joined(SplitFrom(current, t)) == WithoutFinalNewline(current + t)
    ensures current + t != "" ==> SplitFrom(current, t) != []
    decreases |t|
  {
    if t == "" {
      assert current + t == current;
    } else if t[0] == '\n' {
      var rest := t[1..];
      JoinOfSplit("", rest);
      assert "" + rest == rest && current + t == current + "\n" + rest;
      hide WithoutFinalNewline, Joined;
      JoinedCons(current, SplitFrom("", rest));
      WithoutFinalNewlineOf(current, rest);
    } else {
      JoinOfSplit(current + [t[0]], t[1..]);
      assert current + [t[0]] + t[1..] == current + t;
    }
  }

  lemma {:induction false} SplitLinesHoldNoNewline(current: string, t: string)
    requires '\n' !in current
    ensures forall l | l in SplitFrom(current, t) :: '\n' !in l
    decreases |t|
  {
    if t != "" {
      SplitLinesHoldNoNewline(if t[0] == '\n' then "" else current + [t[0]], t[1..]);
    }
  }

  lemma {:induction false} SplitOfJoin(ls: seq<string>)
    requires forall l | l in ls :: '\n' !in l
    requires ls != [] ==> ls[|ls| - 1] != ""
    ensures Split(Joined(ls)) == ls
  {
    if |ls| == 1 {
      SplitFromRun("", ls[0], "");
      assert ls[0] + "" == ls[0] && "" + ls[0] == ls[0];
    } else if |ls| > 1 {
      var rest := "\n" + Joined(ls[1..]);
      assert Joined(ls) == ls[0] + rest && rest[1..] == Joined(ls[1..]);
      SplitFromRun("", ls[0], rest);
      assert "" + ls[0] == ls[0];
      SplitOfJoin(ls[1..]);
    }
  }

  lemma JoinedOfEmptyLast(ls: seq<string>)
    requires ls != [] && ls[|ls| - 1] == ""
    ensures Joined(ls) == "" || WithoutFinalNewline(Joined(ls)) != Joined(ls)
  {
    var front := ls[..|ls| - 1];
    JoinedSnoc(front, "");
    assert ls == front + [""];
    assert Joined(front) + "\n" + "" == Joined(front) + "\n";
  }

  /** Splitting gives a list of lines back exactly when no line holds a newline and the last
      line is not empty. */
  lemma SplitJoinExact(ls: seq<string>)
    ensures Split(Joined(ls)) == ls
       <==> (forall l | l in ls :: '\n' !in l) && (ls != [] ==> ls[|ls| - 1] != "")
  {
    if (forall l | l in ls :: '\n' !in l) && (ls != [] ==> ls[|ls| - 1] != "") {
      SplitOfJoin(ls);
    } else if Split(Joined(ls)) == ls {
      var j := Joined(ls);
      SplitLinesHoldNoNewline("", j);
      JoinOfSplit("", j);
      assert "" + j == j;
      JoinedOfEmptyLast(ls);
      assert false;
    }
  }
}
