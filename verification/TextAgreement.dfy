/** The two parsers of capability texts agree on every printed text. On other texts that both
    accept they may differ: by a leading zero, and by a clause that sets (`ClauseAgreement`
    says exactly when). */
module TextAgreement {
  import opened Words
  import opened CapSet
  import opened Strings
  import opened TextModel
  import GoText
  import CText

  /** Texts of the two printers are read by Go as the set they came from, and so by every C
      build that can speak of the set; any other C build rejects the text. */
  lemma PrintedTextsAgree(b: CText.Build, caps: Caps)
    requires CText.BuildOk(b) && 0 < b.maxBits && |caps| == b.bits
    ensures GoText.Parsed(b.names, b.maxBits, b.bits, TextOf(b.names, caps, b.maxBits)) == Some(caps)
    ensures CText.Parsed(b, TextOf(b.names, caps, b.maxBits)) == if CText.Speakable(b, caps) then Some(caps) else None
  {
    CText.CRoundTrip(b, caps);
    GoText.GoRoundTrip(b.names, b.maxBits, caps);
  }

  // ---------- a leading zero ----------

  /** C reads the numeral "010" in base 8 and Go in base 10, and both accept it. */
  lemma LeadingZeroDiffers(b: CText.Build)
    requires CText.BuildOk(b) && 10 < b.bits
    ensures
      var effective := Pat(true, false, false);
      var c, go := CText.Parsed(b, "010=e"), GoText.Parsed(b.names, b.maxBits, b.bits, "010=e");
      && c.Some? && |c.value| == b.bits && c.value[8] == effective && c.value[10] == LOWERED
      && go.Some? && |go.value| == b.bits && go.value[10] == effective && go.value[8] == LOWERED
  {
    OctalC(b);
    DecimalGo(b);
  }

  lemma OctalC(b: CText.Build)
    requires CText.BuildOk(b) && 10 < b.bits
    ensures CText.Parsed(b, "010=e") == Some(CText.Apply(Empty(b.bits), {8}, CText.Action('=', Pat(true, false, false))))
  {
    var acts := [CText.Action('=', Pat(true, false, false))];
    OctalDigits();
    hide CText.Digits;
    assert CText.NameCompare("010=e", "all") == None;
    assert CText.LookupName(b, "010=e") == Some((8, "=e"));
    hide CText.NameCompare, CText.LookupName;
    var nothing: set<nat> := {};
    assert nothing + {8} == {8};
    assert CText.ReadList(b, "010=e", {}) == Some(({8}, "=e"));
    hide CText.ReadList;
    OneFlag();
    hide CText.ReadActs;
    assert CText.ReadClause(b, "010=e") == Some((CText.Listed({8}, acts), ""));
    hide CText.ReadClause;
    assert CText.ReadText(b, "") == Some([]);
    assert [CText.Listed({8}, acts)] + [] == [CText.Listed({8}, acts)];
    assert CText.ReadText(b, "010=e") == Some([CText.Listed({8}, acts)]);
    hide CText.ReadText;
    var none := Empty(b.bits);
    CText.ApplyAllShort(none, {8}, acts[0], acts[0]);
    hide CText.ApplyAll;
    OneDenoted(none, CText.Listed({8}, acts));
  }

  lemma OneDenoted(caps: Caps, only: CText.Listed)
    ensures CText.Denote(caps, [only]) == CText.ApplyAll(caps, only.list, only.acts)
  {
    assert [only][1..] == [];
    hide CText.ApplyAll;
    assert CText.Denote(CText.ApplyAll(caps, only.list, only.acts), []) == CText.ApplyAll(caps, only.list, only.acts);
  }

  lemma OctalDigits()
    ensures CText.Digits("010=e", 8, 0) == (8, "=e")
  {
    assert "010=e"[1..] == "10=e" && "10=e"[1..] == "0=e" && "0=e"[1..] == "=e";
    assert CText.Digits("=e", 8, 8) == (8, "=e");
    assert CText.Digits("0=e", 8, 1) == (8, "=e");
    assert CText.Digits("10=e", 8, 0) == (8, "=e");
  }

  lemma OneFlag()
    ensures ReadFlags("e") == (Pat(true, false, false), "")
    ensures CText.ReadActs(true, '=', "e") == Some(([CText.Action('=', Pat(true, false, false))], ""))
  {
    assert "e"[1..] == "";
    assert ReadFlags("") == (LOWERED, "");
  }

  lemma DecimalGo(b: CText.Build)
    requires CText.BuildOk(b) && 10 < b.bits
    ensures GoText.Parsed(b.names, b.maxBits, b.bits, "010=e") == Some(RaiseIn(Empty(b.bits), [10], Pat(true, false, false)))
  {
    var none := Empty(b.bits);
    var end := RaiseIn(none, [10], Pat(true, false, false));
    NotAName(b.names);
    NumberTen();
    OneItem();
    assert GoText.FromNames(b.names, b.bits, []) == Some([]);
    assert ["010"][1..] == [] && [10] + [] == [10];
    assert GoText.FromNames(b.names, b.bits, ["010"]) == Some([10]);
    assert GoText.ReadHeader(b.names, b.bits, b.maxBits, "010=e") == Some(GoText.Header([10], '=', "e"));
    OneFlag();
    hide ReadFlags;
    assert GoText.Actions(none, b.maxBits, '=', [10], "e") == Some(end);
    hide GoText.Actions, GoText.ReadHeader;
    assert GoText.ReadClause(b.names, b.maxBits, none, "010=e") == Some(end);
    hide GoText.ReadClause;
    OneWord(b.names, b.maxBits, b.bits, "010=e");
  }

  lemma NotAName(names: seq<string>)
    requires TableOk(names)
    ensures Find(names, "010") == None
  {
    forall k | 0 <= k < |names|
      ensures names[k] != "010"
    {
      assert NameOk(names[k]) && IsNameChar(names[k][0]);
    }
  }

  lemma NumberTen()
    ensures Atoi("010") == Some(10)
  {
    assert "010"[..2] == "01" && "01"[..1] == "0" && "0"[..0] == "";
    assert Number("0", 10) == 0;
    assert Number("01", 10) == 1;
    assert Number("010", 10) == 10;
  }

  lemma OneItem()
    ensures GoText.OpAt("010=e") == 3 && "010=e"[..3] == "010" && "010=e"[4..] == "e"
    ensures Split("010", ',') == ["010"]
  {
    assert "010=e"[1..] == "10=e" && "10=e"[1..] == "0=e" && "0=e"[1..] == "=e";
    SplitWhole("010", ',');
  }

  /** A text of one word is one clause to Go. */
  lemma OneWord(names: seq<string>, maxValues: nat, n: nat, t: string)
    requires t != "" && NoSpace(t)
    ensures GoText.Parsed(names, maxValues, n, t) == GoText.ReadClause(names, maxValues, Empty(n), t)
  {
    hide Tokens, Empty;
    assert Join([t], ' ') == t;
    TokensJoin([t]);
    hide Join;
    var r := GoText.ReadClause(names, maxValues, Empty(n), t);
    hide GoText.ReadClause;
    assert [t][1..] == [];
    if r.Some? {
      assert GoText.ReadClauses(names, maxValues, r.value, []) == r;
    }
  }

  // ---------- one value after another ----------

  /** The parsers differ on a text that sets one value after another. */
  lemma ParsersDiffer(b: CText.Build)
    requires CText.BuildOk(b) && 2 <= b.bits && b.maxBits > 0 && CText.Readable(b, 0) && CText.Readable(b, 1)
    ensures
      var effective, permitted := Pat(true, false, false), Pat(false, true, false);
      var cls := [Clause([0], '=', effective, LOWERED), Clause([1], '=', permitted, LOWERED)];
      var text := Join(ClauseTexts(b.names, cls), ' ');
      var c, go := CText.Parsed(b, text), GoText.Parsed(b.names, b.maxBits, b.bits, text);
      && c.Some? && |c.value| == b.bits && c.value[0] == effective && c.value[1] == permitted
      && go.Some? && |go.value| == b.bits && go.value[0] == LOWERED && go.value[1] == permitted
  {
    var effective, permitted := Pat(true, false, false), Pat(false, true, false);
    var cl0, cl1 := Clause([0], '=', effective, LOWERED), Clause([1], '=', permitted, LOWERED);
    var cls := [cl0, cl1];
    var ts := ClauseTexts(b.names, cls);
    var none := Empty(b.bits);
    assert cls[1..] == [cl1] && cls[1..][1..] == [];
    CReads(b, cl0, cl1);
    assert ts == [ClauseText(b.names, cl0), ClauseText(b.names, cl1)];
    GoReads(b, cl0, cl1);
  }

  lemma CReads(b: CText.Build, cl0: Clause, cl1: Clause)
    requires CText.BuildOk(b) && 2 <= b.bits && CText.Readable(b, 0) && CText.Readable(b, 1)
    requires cl0.op == '=' && cl0.vals == [0] && cl0.down == LOWERED
    requires cl1.op == '=' && cl1.vals == [1] && cl1.down == LOWERED
    ensures var c := CText.Parsed(b, Join(ClauseTexts(b.names, [cl0, cl1]), ' '));
      c.Some? && |c.value| == b.bits && c.value[0] == cl0.up && c.value[1] == cl1.up
  {
    CReadsBoth(b, cl0, cl1);
    var l0, l1 := CText.SetOf([0]), CText.SetOf([1]);
    var none := Empty(b.bits);
    var mid := CText.Apply(none, l0, CText.Action('=', cl0.up));
    CText.ApplyAllShort(none, l0, CText.Action('=', cl0.up), CText.Action('=', cl0.up));
    CText.ApplyAllShort(mid, l1, CText.Action('=', cl1.up), CText.Action('=', cl1.up));
    assert CText.ActsOf(cl0) == [CText.Action('=', cl0.up)] && CText.ActsOf(cl1) == [CText.Action('=', cl1.up)];
    hide CText.ApplyAll, CText.SetOf, ClauseTexts, Join, CText.Parsed;
  }

  lemma CReadsBoth(b: CText.Build, cl0: Clause, cl1: Clause)
    requires CText.BuildOk(b) && 2 <= b.bits && CText.Readable(b, 0) && CText.Readable(b, 1)
    requires cl0.op == '=' && cl0.vals == [0] && cl0.down == LOWERED
    requires cl1.op == '=' && cl1.vals == [1] && cl1.down == LOWERED
    ensures CText.Parsed(b, Join(ClauseTexts(b.names, [cl0, cl1]), ' ')) ==
      Some(CText.ApplyAll(CText.ApplyAll(Empty(b.bits), CText.SetOf([0]), CText.ActsOf(cl0)),
                          CText.SetOf([1]), CText.ActsOf(cl1)))
  {
    CText.TextPrinted(b, [cl0, cl1]);
    BothReadable(b, cl0, cl1);
    TwoListed(b, cl0, cl1);
    TwoDenoted(Empty(b.bits), CText.Listed(CText.SetOf([0]), CText.ActsOf(cl0)),
               CText.Listed(CText.SetOf([1]), CText.ActsOf(cl1)));
    hide CText.ApplyAll, CText.SetOf, ClauseTexts, Join, CText.ReadText, CText.ActsOf, CText.Denote;
    hide CText.AllListed, CText.ClausesReadable;
  }

  lemma BothReadable(b: CText.Build, cl0: Clause, cl1: Clause)
    requires CText.Readable(b, 0) && CText.Readable(b, 1) && cl0.vals == [0] && cl1.vals == [1]
    ensures CText.ClausesReadable(b, [cl0, cl1])
  {
    hide CText.Readable;
    assert [cl0, cl1][1..] == [cl1] && [cl1][1..] == [];
    assert CText.ClausesReadable(b, [cl1]);
  }

  lemma TwoListed(b: CText.Build, cl0: Clause, cl1: Clause)
    ensures CText.AllListed(b, [cl0, cl1]) ==
      [CText.Listed(CText.ListOf(b, cl0), CText.ActsOf(cl0)), CText.Listed(CText.ListOf(b, cl1), CText.ActsOf(cl1))]
  {
    hide CText.ListOf, CText.ActsOf;
    assert [cl0, cl1][1..] == [cl1] && [cl1][1..] == [];
    assert CText.AllListed(b, []) == [];
    assert CText.AllListed(b, [cl1]) == [CText.Listed(CText.ListOf(b, cl1), CText.ActsOf(cl1))];
  }

  lemma TwoDenoted(caps: Caps, first: CText.Listed, second: CText.Listed)
    ensures CText.Denote(caps, [first, second]) ==
      CText.ApplyAll(CText.ApplyAll(caps, first.list, first.acts), second.list, second.acts)
  {
    hide CText.ApplyAll;
    assert [first, second][1..] == [second] && [second][1..] == [];
    var mid := CText.ApplyAll(caps, first.list, first.acts);
    assert CText.Denote(mid, [second]) == CText.ApplyAll(mid, second.list, second.acts);
  }

  lemma GoReads(b: CText.Build, cl0: Clause, cl1: Clause)
    requires CText.BuildOk(b) && 2 <= b.bits && b.maxBits > 0
    requires cl0.op == '=' && cl0.vals == [0] && cl0.down == LOWERED
    requires cl1.op == '=' && cl1.vals == [1] && cl1.down == LOWERED
    ensures var go := GoText.Parsed(b.names, b.maxBits, b.bits, Join(ClauseTexts(b.names, [cl0, cl1]), ' '));
      go.Some? && |go.value| == b.bits && go.value[0] == LOWERED && go.value[1] == cl1.up
  {
    var none := Empty(b.bits);
    GoReadsBoth(b, cl0, cl1);
    hide Join, ClauseTexts, GoText.Parsed;
    var mid := Then(none, b.maxBits, cl0);
    assert |mid| == b.bits;
    assert |Then(mid, b.maxBits, cl1)| == b.bits;
  }

  lemma GoReadsBoth(b: CText.Build, cl0: Clause, cl1: Clause)
    requires CText.BuildOk(b) && 2 <= b.bits && b.maxBits > 0
    requires cl0.op == '=' && cl0.vals == [0] && cl0.down == LOWERED
    requires cl1.op == '=' && cl1.vals == [1] && cl1.down == LOWERED
    ensures GoText.Parsed(b.names, b.maxBits, b.bits, Join(ClauseTexts(b.names, [cl0, cl1]), ' '))
      == Some(Then(Then(Empty(b.bits), b.maxBits, cl0), b.maxBits, cl1))
  {
    var none := Empty(b.bits);
    var ts := ClauseTexts(b.names, [cl0, cl1]);
    ClauseTextIsWord(b.names, cl0, b.bits);
    ClauseTextIsWord(b.names, cl1, b.bits);
    assert ts == [ClauseText(b.names, cl0), ClauseText(b.names, cl1)];
    GoText.ThenLength(none, b.maxBits, cl0);
    var mid := Then(none, b.maxBits, cl0);
    GoText.ReadClauseText(b.names, b.maxBits, none, cl0);
    GoText.ReadClauseText(b.names, b.maxBits, mid, cl1);
    TokensJoin(ts);
    ReadTwo(b.names, b.maxBits, none, ts[0], ts[1], mid, Then(mid, b.maxBits, cl1));
    hide ClauseText, ClauseTexts, Join, Tokens, GoText.ReadClauses, Then, TableOk;
  }

  lemma ReadTwo(names: seq<string>, maxValues: nat, caps: Caps, t0: string, t1: string, mid: Caps, end: Caps)
    requires GoText.ReadClause(names, maxValues, caps, t0) == Some(mid)
    requires GoText.ReadClause(names, maxValues, mid, t1) == Some(end)
    ensures GoText.ReadClauses(names, maxValues, caps, [t0, t1]) == Some(end)
  {
    hide GoText.ReadClause;
    assert [t0, t1][1..] == [t1] && [t1][1..] == [];
    assert GoText.ReadClauses(names, maxValues, mid, [t1]) == Some(end);
  }

  // ---------- texts that only one of them accepts ----------

  /** Go alone lowers all values by "=-e" or "=e-p"; C alone takes a text without clauses,
      and a numeral in base 16. */
  lemma OneSided(b: CText.Build)
    requires CText.BuildOk(b) && 0 < b.maxBits && 1 < b.bits
    ensures CText.Parsed(b, "=-e") == None && GoText.Parsed(b.names, b.maxBits, b.bits, "=-e").Some?
    ensures CText.Parsed(b, "=e-p") == None && GoText.Parsed(b.names, b.maxBits, b.bits, "=e-p").Some?
    ensures CText.Parsed(b, "").Some? && GoText.Parsed(b.names, b.maxBits, b.bits, "") == None
    ensures CText.Parsed(b, "0x1=e").Some? && GoText.Parsed(b.names, b.maxBits, b.bits, "0x1=e") == None
  {
    GoOnly(b);
    NoClauses(b);
    HexadecimalC(b);
    HexadecimalGo(b);
    hide GoText.Parsed, CText.Parsed;
  }

  lemma GoOnly(b: CText.Build)
    requires CText.BuildOk(b) && 0 < b.maxBits
    ensures CText.Parsed(b, "=-e") == None && GoText.Parsed(b.names, b.maxBits, b.bits, "=-e").Some?
    ensures CText.Parsed(b, "=e-p") == None && GoText.Parsed(b.names, b.maxBits, b.bits, "=e-p").Some?
  {
    LowerNothing(b);
    LowerMore(b);
    hide *;
  }

  lemma LowerNothing(b: CText.Build)
    requires CText.BuildOk(b) && 0 < b.maxBits
    ensures CText.Parsed(b, "=-e") == None && GoText.Parsed(b.names, b.maxBits, b.bits, "=-e").Some?
  {
    OneWord(b.names, b.maxBits, b.bits, "=-e");
    hide GoText.Parsed;
  }

  lemma LowerMore(b: CText.Build)
    requires CText.BuildOk(b) && 0 < b.maxBits
    ensures CText.Parsed(b, "=e-p") == None && GoText.Parsed(b.names, b.maxBits, b.bits, "=e-p").Some?
  {
    OneWord(b.names, b.maxBits, b.bits, "=e-p");
    hide GoText.Parsed;
  }

  lemma NoClauses(b: CText.Build)
    requires CText.BuildOk(b)
    ensures CText.Parsed(b, "").Some? && GoText.Parsed(b.names, b.maxBits, b.bits, "") == None
  {
    assert Tokens("") == [];
  }

  lemma HexadecimalC(b: CText.Build)
    requires CText.BuildOk(b) && 1 < b.bits
    ensures CText.Parsed(b, "0x1=e").Some?
  {
    assert CText.Digits("=e", 16, 1) == (1, "=e");
    assert CText.LookupName(b, "0x1=e") == Some((1, "=e"));
    assert CText.NameCompare("0x1=e", "all") == None;
    hide CText.Digits, CText.LookupName, CText.NameCompare;
    var (list, rest) := CText.ReadList(b, "0x1=e", {}).value;
    assert rest == "=e";
    hide CText.ReadList;
    OneFlag();
    hide CText.ReadActs;
    assert CText.ReadText(b, "") == Some([]);
    assert CText.ReadClause(b, "0x1=e").value.1 == "";
    hide CText.ReadClause;
    assert CText.ReadText(b, "0x1=e").Some?;
  }

  lemma HexadecimalGo(b: CText.Build)
    requires CText.BuildOk(b)
    ensures GoText.Parsed(b.names, b.maxBits, b.bits, "0x1=e") == None
  {
    var s := "0x1";
    assert GoText.OpAt("0x1=e") == 3 && "0x1=e"[..3] == s;
    OneWord(b.names, b.maxBits, b.bits, "0x1=e");
    SplitWhole(s, ',');
    assert Atoi(s) == None;
    assert Find(b.names, s) == None by {
      forall k | 0 <= k < |b.names|
        ensures b.names[k] != s
      {
        assert NameOk(b.names[k]) && IsNameChar(b.names[k][0]);
      }
    }
    assert GoText.FromNames(b.names, b.bits, [s]) == None;
    hide Find, Split, GoText.FromNames, GoText.Parsed, GoText.OpAt, Atoi;
  }
}
