/** What texts look like and which liberties both parsers allow: the canonical texts of simple
    sets, the examples of the Go package's documentation, and white space. */
module TextForms {
  import opened Words
  import opened CapSet
  import opened Strings
  import opened TextModel
  import GoText
  import CText

  // ---------- white space ----------

  /** Blank, tab, line feed, vertical tab, form feed and carriage return, by their codes. */
  predicate IsWhite(c: char) {
    c as int == 32 || 9 <= c as int <= 13
  }

  predicate AllWhite(s: string) {
    forall i :: 0 <= i < |s| ==> IsWhite(s[i])
  }

  /** Words with some white space before, between and after them. */
  function Spread(ws: seq<string>, gaps: seq<string>): string
    requires |gaps| == |ws| + 1
  {
    if ws == [] then gaps[0] else gaps[0] + (ws[0] + Spread(ws[1..], gaps[1..]))
  }

  predicate Gaps(gaps: seq<string>) {
    && (forall i :: 0 <= i < |gaps| ==> AllWhite(gaps[i]))
    && forall i :: 1 <= i < |gaps| - 1 ==> gaps[i] != ""
  }

  lemma {:induction false} TokensSkip(g: string, s: string)
    requires AllWhite(g)
    ensures Tokens(g + s) == Tokens(s)
    decreases |g|
  {
    if g == "" {
      assert g + s == s;
    } else {
      assert IsSpace(g[0]) && (g + s)[1..] == g[1..] + s;
      TokensSkip(g[1..], s);
    }
  }

  lemma SpreadRest(ws: seq<string>, gaps: seq<string>)
    requires |gaps| == |ws| + 1 && Gaps(gaps) && ws != []
    ensures Gaps(gaps[1..])
    ensures var t := Spread(ws[1..], gaps[1..]); t == "" || IsSpace(t[0])
  {
    assert gaps[1..][0] == gaps[1];
    if ws[1..] != [] {
      assert gaps[1] != "" && IsWhite(gaps[1][0]);
    }
  }

  /** The words of a text are the same whatever white space there is. */
  lemma {:induction false} TokensSpread(ws: seq<string>, gaps: seq<string>)
    requires |gaps| == |ws| + 1 && Gaps(gaps) && forall i :: 0 <= i < |ws| ==> ws[i] != "" && NoSpace(ws[i])
    ensures Tokens(Spread(ws, gaps)) == ws
    decreases |ws|
  {
    hide Tokens, WordLen;
    if ws == [] {
      assert gaps[0] + "" == gaps[0];
      TokensSkip(gaps[0], "");
      NoTokens();
    } else {
      var t := Spread(ws[1..], gaps[1..]);
      SpreadRest(ws, gaps);
      TokensSkip(gaps[0], ws[0] + t);
      FirstToken(ws[0], t);
      TokensSpread(ws[1..], gaps[1..]);
      assert ws == [ws[0]] + ws[1..];
    }
  }

  lemma NoTokens()
    ensures Tokens("") == []
  {
  }

  lemma FirstToken(w: string, t: string)
    requires w != "" && NoSpace(w) && (t == "" || IsSpace(t[0]))
    ensures Tokens(w + t) == [w] + Tokens(t)
  {
    WordLenPrefix(w, t);
    assert (w + t)[..|w|] == w && (w + t)[|w|..] == t && (w + t)[0] == w[0];
  }

  lemma {:induction false} CSkip(b: CText.Build, g: string, s: string)
    requires CText.BuildOk(b) && AllWhite(g)
    ensures CText.ReadText(b, g + s) == CText.ReadText(b, s)
    decreases |g|
  {
    if g == "" {
      assert g + s == s;
    } else {
      assert IsSpace(g[0]) && (g + s)[1..] == g[1..] + s;
      CSkip(b, g[1..], s);
      hide CText.ReadClause;
    }
  }

  /** C reads printed clauses with any white space around them. */
  lemma {:induction false} CSpread(b: CText.Build, cls: seq<Clause>, gaps: seq<string>)
    requires CText.BuildOk(b) && |gaps| == |cls| + 1 && Gaps(gaps)
    requires forall k :: 0 <= k < |cls| ==> CText.Printable(cls[k]) && forall v :: v in cls[k].vals ==> v < b.bits
    ensures CText.ReadText(b, Spread(ClauseTexts(b.names, cls), gaps)) ==
      if CText.ClausesReadable(b, cls) then Some(CText.AllListed(b, cls)) else None
    decreases |cls|
  {
    var ws := ClauseTexts(b.names, cls);
    if cls == [] {
      assert gaps[0] + "" == gaps[0];
      CSkip(b, gaps[0], "");
    } else {
      var t := Spread(ws[1..], gaps[1..]);
      SpreadRest(ws, gaps);
      assert ws[1..] == ClauseTexts(b.names, cls[1..]);
      CSkip(b, gaps[0], ws[0] + t);
      CText.ClausePrinted(b, cls[0], t);
      CSpread(b, cls[1..], gaps[1..]);
      hide CText.ReadClause, ClauseText, ClauseTexts, CText.AllReadable, CText.ListOf, CText.ActsOf, Gaps, CText.Printable;
      assert CText.ReadText(b, Spread(ws, gaps)) == CText.ReadText(b, ws[0] + t);
    }
  }

  /** White space around and between the clauses of a text changes nothing, for either parser. */
  lemma WhiteSpace(b: CText.Build, caps: Caps, gaps: seq<string>)
    requires CText.BuildOk(b) && 0 < b.maxBits && |caps| == b.bits
    requires |gaps| == |Printed(caps, b.maxBits)| + 1 && Gaps(gaps)
    ensures var text := Spread(ClauseTexts(b.names, Printed(caps, b.maxBits)), gaps);
      && GoText.Parsed(b.names, b.maxBits, b.bits, text) == Some(caps)
      && CText.Parsed(b, text) == if CText.Speakable(b, caps) then Some(caps) else None
  {
    var cls := Printed(caps, b.maxBits);
    var ws := ClauseTexts(b.names, cls);
    PrintedShape(caps, b.maxBits);
    PrintedWordsPlain(b, caps);
    CText.OpeningLowersNothing(caps, b.maxBits);
    hide Printed, ClauseText, ClauseTexts, CText.Speakable;
    TokensSpread(ws, gaps);
    GoText.PrintedWords(b.names, b.maxBits, caps);
    GoText.GoRoundTrip(b.names, b.maxBits, caps);
    CSpread(b, cls, gaps);
    CText.TextPrinted(b, cls);
    CText.CRoundTrip(b, caps);
    hide Tokens, Spread, Gaps, CText.ReadText, GoText.ReadClauses, CText.Denote, CText.AllListed, CText.ClausesReadable, Join;
    SameReading(b, Spread(ws, gaps), TextOf(b.names, caps, b.maxBits));
  }

  lemma PrintedWordsPlain(b: CText.Build, caps: Caps)
    requires CText.BuildOk(b) && |caps| == b.bits
    ensures var ws := ClauseTexts(b.names, Printed(caps, b.maxBits));
      forall i :: 0 <= i < |ws| ==> ws[i] != "" && NoSpace(ws[i])
  {
    var cls := Printed(caps, b.maxBits);
    PrintedShape(caps, b.maxBits);
    hide Printed, ClauseText;
    forall i | 0 <= i < |cls|
      ensures ClauseText(b.names, cls[i]) != "" && NoSpace(ClauseText(b.names, cls[i]))
    {
      ClauseTextIsWord(b.names, cls[i], |caps|);
    }
  }

  /** A text with the words and the clauses of another one reads as it does. */
  lemma SameReading(b: CText.Build, text: string, other: string)
    requires CText.BuildOk(b) && Tokens(text) == Tokens(other) && CText.ReadText(b, text) == CText.ReadText(b, other)
    ensures GoText.Parsed(b.names, b.maxBits, b.bits, text) == GoText.Parsed(b.names, b.maxBits, b.bits, other)
    ensures CText.Parsed(b, text) == CText.Parsed(b, other)
  {
    hide Tokens, CText.ReadText, GoText.ReadClauses, CText.Denote;
  }

  // ---------- canonical texts ----------

  /** The flags are written with their letters, in this order. */
  lemma FlagLetters()
    ensures FlagText(Pat(false, false, false)) == "" && FlagText(Pat(true, true, true)) == "eip"
    ensures FlagText(Pat(true, false, false)) == "e" && FlagText(Pat(false, true, false)) == "p"
    ensures FlagText(Pat(false, false, true)) == "i" && FlagText(Pat(true, true, false)) == "ep"
    ensures FlagText(Pat(true, false, true)) == "ei" && FlagText(Pat(false, true, true)) == "ip"
  {
  }

  lemma {:induction false} NoMembers(caps: Caps, p: Pat, lo: nat, hi: nat)
    requires lo <= hi <= |caps| && forall v :: lo <= v < hi ==> caps[v] != p
    ensures Members(caps, p, lo, hi) == []
  {
    if lo < hi {
      NoMembers(caps, p, lo, hi - 1);
    }
  }

  lemma {:induction false} AllMembers(caps: Caps, p: Pat, lo: nat, hi: nat)
    requires lo <= hi <= |caps| && forall v :: lo <= v < hi ==> caps[v] == p
    ensures |Members(caps, p, lo, hi)| == hi - lo
  {
    if lo < hi {
      AllMembers(caps, p, lo, hi - 1);
    }
  }

  lemma {:induction false} OneMember(caps: Caps, p: Pat, lo: nat, hi: nat, v: nat)
    requires lo <= v < hi <= |caps| && forall u :: lo <= u < hi ==> (caps[u] == p <==> u == v)
    ensures Members(caps, p, lo, hi) == [v]
    decreases hi
  {
    if v < hi - 1 {
      OneMember(caps, p, lo, hi - 1, v);
    } else {
      NoMembers(caps, p, lo, hi - 1);
    }
  }

  lemma {:induction false} NoGroups(caps: Caps, named: nat, m: nat, i: nat)
    requires named <= |caps| && m < 8 && i <= 8
    requires forall v :: 0 <= v < named ==> CodeOf(caps[v]) == m || CodeOf(caps[v]) >= i
    ensures NamedGroups(caps, named, m, i) == []
    decreases i
  {
    if i > 0 {
      NoGroups(caps, named, m, i - 1);
      CodeOfPat(i - 1);
      if i - 1 != m {
        NoMembers(caps, PatOf(i - 1), 0, named);
      }
    }
  }

  lemma {:induction false} NoUnnamed(caps: Caps, named: nat, i: nat)
    requires named <= |caps| && i <= 8 && forall v :: named <= v < |caps| ==> caps[v] == LOWERED
    ensures UnnamedGroups(caps, named, i) == []
    decreases i
  {
    if i > 1 {
      NoUnnamed(caps, named, i - 1);
      CodeOfPat(i - 1);
      NoMembers(caps, PatOf(i - 1), named, |caps|);
    }
  }

  lemma UniformBackground(caps: Caps, named: nat, p: Pat)
    requires 0 < named <= |caps| && forall v :: 0 <= v < named ==> caps[v] == p
    ensures Background(caps, named) == CodeOf(p)
  {
    var m := Background(caps, named);
    BackgroundIsLeastBest(caps, named);
    AllMembers(caps, p, 0, named);
    assert Count(caps, CodeOf(p), 0, named) == named;
    if m != CodeOf(p) {
      CodeOfPat(m);
      NoMembers(caps, PatOf(m), 0, named);
      assert false;
    }
  }

  lemma UniformPrinted(n: nat, named: nat, p: Pat)
    requires 0 < named <= n
    ensures Printed(Uniform(n, named, p), named) == [Clause([], '=', p, LOWERED)]
  {
    var caps := Uniform(n, named, p);
    UniformBackground(caps, named, p);
    NoGroups(caps, named, CodeOf(p), 8);
    NoUnnamed(caps, named, 8);
    hide Background, NamedGroups, UnnamedGroups, Uniform, CodeOf;
    assert PatOf(CodeOf(p)) == p;
    hide PatOf;
    assert Opening(CodeOf(p), []) == [Clause([], '=', p, LOWERED)];
  }

  /** The text of a set in which all named values have the same flags. */
  lemma UniformText(names: seq<string>, n: nat, named: nat, p: Pat)
    requires 0 < named <= n
    ensures TextOf(names, Uniform(n, named, p), named) == "=" + FlagText(p)
  {
    var cl := Clause([], '=', p, LOWERED);
    UniformPrinted(n, named, p);
    OneClause(names, cl);
    hide Printed, FlagText, Uniform, ClauseTexts;
    assert NamesOf(names, []) == [];
    assert ClauseText(names, cl) == "=" + FlagText(p);
  }

  lemma OneClause(names: seq<string>, cl: Clause)
    ensures Join(ClauseTexts(names, [cl]), ' ') == ClauseText(names, cl)
  {
    hide ClauseText;
    assert ClauseTexts(names, [cl]) == [ClauseText(names, cl)];
  }

  /** Some of the named values raise the same flags, fewer than do not, and nothing else does. */
  predicate OneGroup(caps: Caps, named: nat, p: Pat) {
    && named <= |caps| && p != LOWERED
    && (forall v :: 0 <= v < named ==> caps[v] == p || caps[v] == LOWERED)
    && (forall v :: named <= v < |caps| ==> caps[v] == LOWERED)
    && 0 < |Members(caps, p, 0, named)| && 2 * |Members(caps, p, 0, named)| < named
  }

  lemma {:induction false} TwoKinds(caps: Caps, p: Pat, q: Pat, lo: nat, hi: nat)
    requires lo <= hi <= |caps| && p != q && forall v :: lo <= v < hi ==> caps[v] == p || caps[v] == q
    ensures |Members(caps, p, lo, hi)| + |Members(caps, q, lo, hi)| == hi - lo
    decreases hi
  {
    if lo < hi {
      TwoKinds(caps, p, q, lo, hi - 1);
    }
  }

  lemma GroupBackground(caps: Caps, named: nat, p: Pat)
    requires OneGroup(caps, named, p)
    ensures Background(caps, named) == 0
  {
    var m := Background(caps, named);
    BackgroundIsLeastBest(caps, named);
    TwoKinds(caps, p, LOWERED, 0, named);
    assert PatOf(0) == LOWERED && Count(caps, 0, 0, named) > |Members(caps, p, 0, named)|;
    if m != 0 {
      CodeOfPat(m);
      CodeOfPat(0);
      if PatOf(m) != p {
        NoMembers(caps, PatOf(m), 0, named);
      }
      assert false;
    }
  }

  lemma {:induction false} GroupOnly(caps: Caps, named: nat, p: Pat, i: nat)
    requires OneGroup(caps, named, p) && i <= 8
    ensures NamedGroups(caps, named, 0, i) ==
      if CodeOf(p) < i then [Clause(Members(caps, p, 0, named), '+', p, LOWERED)] else []
    decreases i
  {
    if i > 0 {
      GroupOnly(caps, named, p, i - 1);
      CodeOfPat(i - 1);
      CodeOfPat(0);
      var q := PatOf(i - 1);
      if q != p && i - 1 != 0 {
        assert q != LOWERED;
        NoMembers(caps, q, 0, named);
      }
      assert Minus(q, LOWERED) == q && Minus(LOWERED, q) == LOWERED && PatOf(0) == LOWERED && CodeOf(p) != 0;
      assert CodeOf(p) == i - 1 <==> q == p;
      hide Members, PatOf, CodeOf, Minus;
    }
  }

  lemma GroupPrinted(caps: Caps, named: nat, p: Pat)
    requires OneGroup(caps, named, p)
    ensures Printed(caps, named) == [Clause(Members(caps, p, 0, named), '=', p, LOWERED)]
  {
    var group := Clause(Members(caps, p, 0, named), '+', p, LOWERED);
    assert CodeOf(p) < 8;
    hide Background, NamedGroups, UnnamedGroups, CodeOf, PatOf, Members, Opening;
    GroupBackground(caps, named, p);
    NoUnnamed(caps, named, 8);
    GroupOnly(caps, named, p, 8);
    hide OneGroup;
    MergedGroup(group);
    var merged := [group.(op := '=')];
    assert merged + [] == merged;
  }

  lemma MergedGroup(group: Clause)
    ensures Opening(0, [group]) == [group.(op := '=')]
  {
    assert [group][1..] == [];
  }

  /** The text of such a set: the names with commas between them, an equals sign and the flags. */
  lemma GroupText(names: seq<string>, caps: Caps, named: nat, p: Pat)
    requires OneGroup(caps, named, p)
    ensures TextOf(names, caps, named) == Join(NamesOf(names, Members(caps, p, 0, named)), ',') + ("=" + FlagText(p))
  {
    var cl := Clause(Members(caps, p, 0, named), '=', p, LOWERED);
    GroupPrinted(caps, named, p);
    OneClause(names, cl);
    hide Printed, FlagText, Members, NamesOf, Join, ClauseTexts, OneGroup;
    assert ClauseText(names, cl) == Join(NamesOf(names, cl.vals), ',') + ("=" + FlagText(p));
  }

  /** The text of a set that raises one named value. */
  lemma SingleText(names: seq<string>, n: nat, named: nat, v: nat, p: Pat)
    requires 3 <= named <= n && v < named && p != LOWERED
    ensures TextOf(names, Empty(n)[v := p], named) == NameOf(names, v) + ("=" + FlagText(p))
  {
    var caps := Empty(n)[v := p];
    OneMember(caps, p, 0, named, v);
    assert OneGroup(caps, named, p);
    GroupText(names, caps, named, p);
    hide TextOf, FlagText, NameOf, Members;
    assert NamesOf(names, [v]) == [NameOf(names, v)];
  }
}
