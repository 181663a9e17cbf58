/** How the two parsers of capability texts compare on whatever text both accept: Go reads it
    as C does, except that a clause that sets first lowers everything else. */
module ClauseAgreement {
  import opened Words
  import opened CapSet
  import opened Strings
  import opened TextModel
  import G = GoText
  import C = CText

  // ---------- one value ----------

  /** The C library reads a numeral with a leading zero in base 8. */
  predicate LeadingZero(s: string) {
    1 < |s| && s[0] == '0'
  }

  lemma NumeralAgrees(s: string, t: string)
    requires s != "" && AllDigits(s) && !LeadingZero(s) && C.EndsWord(t)
    ensures C.ReadNumber(s + t) == (Number(s, 10), t)
  {
    if s[0] == '0' {
      assert s == "0" && (s + t)[1..] == t;
      assert Number(s, 10) == 0 by {
        assert s[..0] == "";
      }
      assert C.Digits(t, 8, 0) == (0, t);
    } else {
      C.DigitsOf(s, t, 0);
      C.FromLeftIsNumber(s);
    }
  }

  /** What Go takes for a value, C takes for the same value or not at all. */
  lemma ValueAgrees(b: C.Build, s: string, v: nat, t: string)
    requires C.BuildOk(b) && C.EndsWord(t) && !LeadingZero(s)
    requires s == "" || !IsOp(s[0])
    requires G.FromName(b.names, b.bits, s) == Some(v)
    ensures s != "" && C.IsWordChar((s + t)[0]) && C.NameCompare(s + t, "all") == None
    ensures var r := C.LookupName(b, s + t); r.None? || r == Some((v, t))
  {
    if Find(b.names, s).Some? {
      C.LookupPrinted(b, v, t);
      hide C.LookupName, C.NameCompare;
    } else {
      assert Atoi(s) == Some(v) && AllDigits(s) && s != "";
      NumeralAgrees(s, t);
      hide C.ReadNumber, Number, Find;
      assert "all"[0] == 'a';
    }
  }

  // ---------- the list of a clause ----------

  predicate PlainItems(ss: seq<string>) {
    forall i :: 0 <= i < |ss| ==> !LeadingZero(ss[i])
  }

  predicate NoOps(s: string) {
    forall i :: 0 <= i < |s| ==> !IsOp(s[i])
  }

  /** A list of one value, and of one value before others. */
  lemma ListStep(b: C.Build, s: string, v: nat, t: string, list: set<nat>)
    requires C.BuildOk(b) && C.EndsWord(t) && !LeadingZero(s) && NoOps(s)
    requires G.FromName(b.names, b.bits, s) == Some(v)
    ensures s != "" && C.IsWordChar((s + t)[0])
    ensures var r := C.ReadList(b, s + t, list);
      || r == None
      || (if t == "" || t[0] != ',' then r == Some((list + {v}, t))
          else t[1..] != "" && C.IsWordChar(t[1]) && r == C.ReadList(b, t[1..], list + {v}))
  {
    ValueAgrees(b, s, v, t);
    hide C.LookupName, C.NameCompare, G.FromName, LeadingZero, C.BuildOk;
  }

  lemma SplitUnfold(l: string)
    ensures var n := UpTo(l, ',');
      Split(l, ',') == if n == |l| then [l] else [l[..n]] + Split(l[n + 1..], ',')
  {
    hide UpTo;
  }

  lemma FromNamesUnfold(names: seq<string>, limit: nat, first: string, rest: seq<string>, vs: seq<nat>)
    requires G.FromNames(names, limit, [first] + rest) == Some(vs)
    ensures vs != [] && G.FromName(names, limit, first) == Some(vs[0]) && G.FromNames(names, limit, rest) == Some(vs[1..])
  {
    assert ([first] + rest)[1..] == rest;
    hide G.FromName;
  }

  /** A list that Go reads, C reads as the same values or not at all. */
  lemma {:induction false} ListAgrees(b: C.Build, l: string, vs: seq<nat>, t: string, list: set<nat>)
    requires C.BuildOk(b) && NoOps(l) && PlainItems(Split(l, ','))
    requires t != "" && IsOp(t[0])
    requires G.FromNames(b.names, b.bits, Split(l, ',')) == Some(vs)
    ensures l != "" && vs != [] && C.IsWordChar((l + t)[0])
    ensures var r := C.ReadList(b, l + t, list); r.None? || r == Some((list + C.SetOf(vs), t))
    decreases |l|
  {
    hide C.ReadList, C.LookupName, G.FromName, G.FromNames, LeadingZero, Split, C.BuildOk, C.SetOf;
    var n := UpTo(l, ',');
    var first := l[..n];
    SplitUnfold(l);
    if n == |l| {
      assert first == l && [l] + [] == Split(l, ',');
      FromNamesUnfold(b.names, b.bits, l, [], vs);
      assert Split(l, ',')[0] == l;
      ListStep(b, l, vs[0], t, list);
      OneValue(b, vs, list);
    } else {
      var rest := l[n + 1..];
      var items := Split(rest, ',');
      assert Split(l, ',')[0] == first;
      assert forall i :: 0 <= i < |items| ==> items[i] == Split(l, ',')[i + 1];
      FromNamesUnfold(b.names, b.bits, first, items, vs);
      ListAgrees(b, rest, vs[1..], t, list + {vs[0]});
      ListStep(b, first, vs[0], "," + (rest + t), list);
      assert ("," + (rest + t))[1..] == rest + t;
      assert l + t == first + ("," + (rest + t));
      MoreValues(vs, list);
    }
  }

  lemma OneValue(b: C.Build, vs: seq<nat>, list: set<nat>)
    requires vs != [] && G.FromNames(b.names, b.bits, []) == Some(vs[1..])
    ensures list + C.SetOf(vs) == list + {vs[0]}
  {
    assert vs[1..] == [];
  }

  lemma MoreValues(vs: seq<nat>, list: set<nat>)
    requires vs != []
    ensures list + C.SetOf(vs) == list + {vs[0]} + C.SetOf(vs[1..])
  {
  }

  /** The numerals of a clause's list have no leading zeros. */
  predicate PlainClause(t: string) {
    PlainItems(Split(t[..G.OpAt(t)], ','))
  }

  /** Which values a clause is about, to both parsers: those it lists, or all named ones. */
  predicate SameList(b: C.Build, vs: seq<nat>, list: set<nat>) {
    if vs == [] then list == Below(b.maxBits) else list == C.SetOf(vs)
  }

  lemma {:induction false} OpAtIs(t: string)
    ensures NoOps(t[..G.OpAt(t)])
  {
    if t != "" && !IsOp(t[0]) {
      OpAtIs(t[1..]);
      assert t[..G.OpAt(t)] == [t[0]] + t[1..][..G.OpAt(t[1..])];
    }
  }

  /** Go's reading of a clause up to its first operator. */
  lemma HeaderShape(names: seq<string>, limit: nat, maxValues: nat, t: string)
    requires G.ReadHeader(names, limit, maxValues, t).Some?
    ensures var h, i := G.ReadHeader(names, limit, maxValues, t).value, G.OpAt(t);
      && i < |t|
      && (if t[..i] == "all" then h.vs == G.FirstValues(maxValues)
          else if i > 0 then G.FromNames(names, limit, Split(t[..i], ',')) == Some(h.vs)
          else h.vs == [] && t[0] == '=')
      && (if h.sep == 'P' || h.sep == 'M' then i == 0 && 2 < |t| && (t[1] == '+' || t[1] == '-')
          else h.sep == t[i] && h.rest == t[i + 1..])
  {
    hide G.FromNames, Split;
  }

  /** What Go reads before the first operator of a clause. */
  ghost predicate Heads(b: C.Build, l: string, u: string, vs: seq<nat>) {
    if l == "all" then vs == G.FirstValues(b.maxBits)
    else if l != "" then G.FromNames(b.names, b.bits, Split(l, ',')) == Some(vs)
    else vs == [] && u != "" && u[0] == '='
  }

  /** A clause is about the same values for both, if C accepts what it lists. */
  lemma ListedAgrees(b: C.Build, l: string, u: string, vs: seq<nat>)
    requires C.BuildOk(b) && 0 < b.maxBits && NoOps(l) && PlainItems(Split(l, ','))
    requires u != "" && IsOp(u[0]) && Heads(b, l, u, vs)
    ensures (C.IsWordChar((l + u)[0]) <==> vs != []) && (vs == [] <==> l == "")
    ensures var r := C.ReadListed(b, l + u); r.None? || (SameList(b, vs, r.value.0) && r.value.1 == u)
  {
    hide C.ReadList, Split, G.FromNames, C.SetOf, Below, C.BuildOk, G.FirstValues, PlainItems;
    if l == "all" {
      AllAgrees(b, u);
    } else if l != "" {
      ListAgrees(b, l, vs, u, {});
      assert {} + C.SetOf(vs) == C.SetOf(vs);
    } else {
      assert l + u == u;
    }
  }

  lemma AllAgrees(b: C.Build, u: string)
    requires C.BuildOk(b) && 0 < b.maxBits && u != "" && IsOp(u[0])
    ensures C.ReadList(b, "all" + u, {}) == Some((Below(b.maxBits), u))
    ensures SameList(b, G.FirstValues(b.maxBits), Below(b.maxBits)) && G.FirstValues(b.maxBits) != []
  {
    var s := "all" + u;
    assert s[1..] == "ll" + u && s[1..][1..] == "l" + u && s[1..][1..][1..] == u && s[3..] == u;
    assert "all"[1..] == "ll" && "ll"[1..] == "l" && "l"[1..] == "";
    assert C.NameCompare(u, "") == Some(u);
    assert C.NameCompare("l" + u, "l") == Some(u);
    assert C.NameCompare("ll" + u, "ll") == Some(u);
    assert C.NameCompare(s, "all") == Some(u);
    hide C.NameCompare, Below;
    forall v: nat
      ensures v in G.FirstValues(b.maxBits) <==> v < b.maxBits
    {
      if v < b.maxBits {
        assert G.FirstValues(b.maxBits)[v] == v;
      }
    }
    assert C.SetOf(G.FirstValues(b.maxBits)) == Below(b.maxBits);
  }

  // ---------- the actions of a clause ----------

  lemma {:induction false} FlagsBefore(s: string, r: string)
    requires NoSpace(s) && C.AtEnd(r)
    ensures ReadFlags(s + r) == (ReadFlags(s).0, ReadFlags(s).1 + r)
    ensures NoSpace(ReadFlags(s).1) && (ReadFlags(s).1 != "" ==> !IsFlag(ReadFlags(s).1[0]))
  {
    if s == "" {
      assert s + r == r;
    } else {
      assert (s + r)[1..] == s[1..] + r;
      FlagsBefore(s[1..], r);
    }
  }

  /** One operator in Go. */
  lemma GoStep(caps: Caps, maxValues: nat, sep: char, vs: seq<nat>, s: string)
    requires G.Actions(caps, maxValues, sep, vs, s).Some?
    ensures var (fl, rest) := ReadFlags(s);
      && (fl == LOWERED ==> sep == '=')
      && var c := G.Act(caps, maxValues, sep, vs, fl);
      && c.Some?
      && G.Actions(caps, maxValues, sep, vs, s) ==
           (if rest == "" then c else G.Actions(c.value, maxValues, rest[0], vs, rest[1..]))
      && (rest != "" ==> rest[0] == '+' || rest[0] == '-')
  {
    hide ReadFlags, G.Act;
  }

  /** One operator in C, in a clause that is followed by the end of the text or a space. */
  lemma CStep(listed: bool, op: char, s: string, r: string)
    requires NoSpace(s) && C.AtEnd(r) && C.ReadActs(listed, op, s + r).Some?
    ensures var (fl, rest) := ReadFlags(s);
      var acts := C.ReadActs(listed, op, s + r).value;
      && acts.0 != [] && acts.0[0] == C.Action(op, fl)
      && (fl == LOWERED ==> op == '=')
      && if rest == "" then acts == ([C.Action(op, fl)], r)
         else
           && fl != LOWERED && listed && (rest[0] == '+' || rest[0] == '-')
           && var more := C.ReadActs(listed, rest[0], rest[1..] + r);
           more.Some? && acts == ([C.Action(op, fl)] + more.value.0, more.value.1)
  {
    FlagsBefore(s, r);
    var rest := ReadFlags(s).1;
    hide ReadFlags;
    if rest != "" {
      assert (rest + r)[0] == rest[0] && (rest + r)[1..] == rest[1..] + r;
    } else {
      assert rest + r == r;
    }
  }

  lemma ApplyFirst(caps: Caps, list: set<nat>, a: C.Action, more: seq<C.Action>)
    ensures C.ApplyAll(caps, list, [a] + more) == C.ApplyAll(C.Apply(caps, list, a), list, more)
  {
    assert ([a] + more)[1..] == more;
    hide C.Apply;
  }

  /** Operators after the first, or a first one that adds or lowers, do the same in both. */
  lemma {:induction false} LaterAgrees(caps: Caps, maxValues: nat, op: char, vs: seq<nat>, s: string, r: string)
    requires (op == '+' || op == '-') && vs != [] && NoSpace(s) && C.AtEnd(r)
    requires G.Actions(caps, maxValues, op, vs, s).Some? && C.ReadActs(true, op, s + r).Some?
    ensures var (acts, rest) := C.ReadActs(true, op, s + r).value;
      && rest == r && acts != [] && acts[0].op == op
      && G.Actions(caps, maxValues, op, vs, s) == Some(C.ApplyAll(caps, C.SetOf(vs), acts))
    decreases |s|
  {
    GoStep(caps, maxValues, op, vs, s);
    CStep(true, op, s, r);
    FlagsBefore(s, r);
    var (fl, rest) := ReadFlags(s);
    C.ApplyIsThen(caps, vs, fl);
    var a, c := C.Action(op, fl), G.Act(caps, maxValues, op, vs, fl).value;
    assert c == C.Apply(caps, C.SetOf(vs), a);
    hide ReadFlags, C.ReadActs, G.Actions, G.Act, C.Apply, C.ApplyAll, C.SetOf, RaiseIn, LowerIn;
    if rest == "" {
      ApplyFirst(caps, C.SetOf(vs), a, []);
      C.ApplyAllShort(caps, C.SetOf(vs), a, a);
    } else {
      LaterAgrees(c, maxValues, rest[0], vs, rest[1..], r);
      ApplyFirst(caps, C.SetOf(vs), a, C.ReadActs(true, rest[0], rest[1..] + r).value.0);
    }
  }

  /** The clause's first operator sets. */
  predicate Sets(acts: seq<C.Action>) {
    acts != [] && acts[0].op != '+' && acts[0].op != '-'
  }

  /** What Go starts a clause from. */
  function Before(caps: Caps, acts: seq<C.Action>): Caps {
    if Sets(acts) then Empty(|caps|) else caps
  }

  /** A plain "=" in Go is C's over the empty set. */
  lemma SettingActs(b: C.Build, caps: Caps, vs: seq<nat>, list: set<nat>, fl: Pat)
    requires SameList(b, vs, list)
    ensures G.Act(caps, b.maxBits, '=', vs, fl) == Some(C.Apply(Empty(|caps|), list, C.Action('=', fl)))
  {
    var none := Empty(|caps|);
    C.ApplyIsThen(none, vs, fl);
    C.ApplyIsUniform(|caps|, b.maxBits, fl);
    hide C.SetOf, Below, C.Apply, RaiseIn, LowerIn, Uniform, Empty;
  }

  lemma EqualAgrees(b: C.Build, caps: Caps, vs: seq<nat>, list: set<nat>, s: string, r: string)
    requires SameList(b, vs, list) && NoSpace(s) && C.AtEnd(r)
    requires G.Actions(caps, b.maxBits, '=', vs, s).Some? && C.ReadActs(vs != [], '=', s + r).Some?
    ensures var (acts, rest) := C.ReadActs(vs != [], '=', s + r).value;
      && rest == r && acts != [] && acts[0].op == '='
      && G.Actions(caps, b.maxBits, '=', vs, s) == Some(C.ApplyAll(Empty(|caps|), list, acts))
  {
    var none := Empty(|caps|);
    GoStep(caps, b.maxBits, '=', vs, s);
    CStep(vs != [], '=', s, r);
    FlagsBefore(s, r);
    var (fl, rest) := ReadFlags(s);
    SettingActs(b, caps, vs, list, fl);
    var a := C.Action('=', fl);
    var c := C.Apply(none, list, a);
    hide ReadFlags, C.ReadActs, G.Actions, G.Act, C.Apply, C.ApplyAll, C.SetOf, Below, Empty;
    if rest == "" {
      C.ApplyAllShort(none, list, a, a);
    } else {
      LaterAgrees(c, b.maxBits, rest[0], vs, rest[1..], r);
      ApplyFirst(none, list, a, C.ReadActs(true, rest[0], rest[1..] + r).value.0);
    }
  }

  /** Over the empty set "=+" is "+" and "=-" is "-". */
  lemma SetSigned(n: nat, list: set<nat>, fl: Pat)
    ensures C.Apply(Empty(n), list, C.Action('P', fl)) == C.Apply(Empty(n), list, C.Action('+', fl))
    ensures C.Apply(Empty(n), list, C.Action('M', fl)) == C.Apply(Empty(n), list, C.Action('-', fl))
  {
  }

  lemma SignedAgrees(b: C.Build, caps: Caps, sign: char, vs: seq<nat>, s: string, r: string)
    requires vs != [] && (sign == '+' || sign == '-') && NoSpace(s) && C.AtEnd(r)
    requires G.Actions(caps, b.maxBits, '=', vs, [sign] + s).Some?
    requires var op := if sign == '+' then 'P' else 'M'; C.ReadActs(true, op, s + r).Some?
    ensures var op := if sign == '+' then 'P' else 'M';
      var (acts, rest) := C.ReadActs(true, op, s + r).value;
      && rest == r && acts != [] && acts[0].op == op
      && G.Actions(caps, b.maxBits, '=', vs, [sign] + s) == Some(C.ApplyAll(Empty(|caps|), C.SetOf(vs), acts))
  {
    var op := if sign == '+' then 'P' else 'M';
    var none := Empty(|caps|);
    assert ReadFlags([sign] + s) == (LOWERED, [sign] + s);
    GoStep(caps, b.maxBits, '=', vs, [sign] + s);
    assert ([sign] + s)[1..] == s;
    assert G.Act(caps, b.maxBits, '=', vs, LOWERED).value == none;
    SameActs(op, sign, s, r);
    LaterAgrees(none, b.maxBits, sign, vs, s, r);
    var (acts, rest) := C.ReadActs(true, op, s + r).value;
    var acts' := C.ReadActs(true, sign, s + r).value.0;
    ApplyFirst(none, C.SetOf(vs), acts[0], acts[1..]);
    ApplyFirst(none, C.SetOf(vs), acts'[0], acts[1..]);
    SetSigned(|caps|, C.SetOf(vs), acts[0].flags);
    hide C.ReadActs, C.Apply, C.ApplyAll, C.SetOf, Empty, G.Actions, G.Act;
    assert acts == [acts[0]] + acts[1..] && acts' == [acts'[0]] + acts[1..];
  }

  /** Which of the operators other than "=" comes first does not matter to what follows. */
  lemma SameActs(op: char, sign: char, s: string, r: string)
    requires op != '=' && sign != '=' && C.ReadActs(true, op, s + r).Some?
    ensures C.ReadActs(true, sign, s + r).Some?
    ensures var (acts, rest) := C.ReadActs(true, op, s + r).value;
      acts != [] && acts[0].op == op
      && C.ReadActs(true, sign, s + r).value == ([C.Action(sign, acts[0].flags)] + acts[1..], rest)
  {
    var (fl, rest) := ReadFlags(s + r);
    hide ReadFlags;
    if !C.AtEnd(rest) {
      var more := C.ReadActs(true, rest[0], rest[1..]).value.0;
      assert ([C.Action(op, fl)] + more)[1..] == more;
    } else {
      assert [C.Action(op, fl)][1..] == [];
      assert [C.Action(sign, fl)] + [] == [C.Action(sign, fl)];
    }
  }

  // ---------- a clause ----------

  /** From the first operator on. */
  lemma TailAgrees(b: C.Build, caps: Caps, vs: seq<nat>, list: set<nat>, sep: char, s: string, r: string)
    requires SameList(b, vs, list) && NoSpace(s) && C.AtEnd(r) && IsOp(sep) && (sep != '=' ==> vs != [])
    requires G.Actions(caps, b.maxBits, sep, vs, s).Some?
    requires var o := C.ReadOp(vs != [], [sep] + (s + r));
      o.Some? && C.ReadActs(vs != [], o.value.0, o.value.1).Some?
    ensures var o := C.ReadOp(vs != [], [sep] + (s + r)).value;
      var (acts, rest) := C.ReadActs(vs != [], o.0, o.1).value;
      && rest == r && acts != [] && acts[0].op == o.0 && (Sets(acts) <==> sep == '=')
      && G.Actions(caps, b.maxBits, sep, vs, s) == Some(C.ApplyAll(Before(caps, acts), list, acts))
  {
    var t := [sep] + (s + r);
    assert t[1..] == s + r;
    hide C.ReadActs, G.Actions, C.ApplyAll, Empty, C.SetOf, Below;
    if sep != '=' {
      LaterAgrees(caps, b.maxBits, sep, vs, s, r);
    } else if s != "" && (s[0] == '+' || s[0] == '-') {
      assert t[2..] == s[1..] + r && s == [s[0]] + s[1..];
      SignedAgrees(b, caps, s[0], vs, s[1..], r);
    } else {
      EqualAgrees(b, caps, vs, list, s, r);
    }
  }

  /** C's reading of a clause once its list is read. */
  lemma AfterList(b: C.Build, x: string, listed: bool)
    requires C.BuildOk(b) && x != "" && (C.IsWordChar(x[0]) <==> listed) && C.ReadClause(b, x).Some?
    ensures C.ReadListed(b, x).Some?
    ensures var (list, u) := C.ReadListed(b, x).value; var o := C.ReadOp(listed, u);
      && o.Some? && C.ReadActs(listed, o.value.0, o.value.1).Some?
      && var (acts, rest) := C.ReadActs(listed, o.value.0, o.value.1).value;
         C.ReadClause(b, x).value == (C.Listed(list, acts), rest)
  {
    hide C.ReadActs, C.ReadOp, C.ReadListed;
  }

  /** The parts of a clause: what it lists, its first operator, and the rest. */
  lemma Parts(t: string, i: nat, r: string)
    requires i < |t| && NoSpace(t)
    ensures t + r == t[..i] + ([t[i]] + (t[i + 1..] + r))
    ensures NoSpace(t[i + 1..])
  {
    assert t == t[..i] + [t[i]] + t[i + 1..];
  }

  /** A clause that both parsers accept, Go reads as C does, except that one whose first
      operator sets starts from nothing. */
  lemma ClauseAgrees(b: C.Build, caps: Caps, t: string, r: string)
    requires C.BuildOk(b) && 0 < b.maxBits && |caps| == b.bits
    requires t != "" && NoSpace(t) && C.AtEnd(r) && PlainClause(t)
    requires G.ReadClause(b.names, b.maxBits, caps, t).Some? && C.ReadClause(b, t + r).Some?
    ensures var (cl, rest) := C.ReadClause(b, t + r).value;
      && rest == r && cl.acts != []
      && G.ReadClause(b.names, b.maxBits, caps, t) == Some(C.ApplyAll(Before(caps, cl.acts), cl.list, cl.acts))
  {
    var i := G.OpAt(t);
    var h := G.ReadHeader(b.names, b.bits, b.maxBits, t).value;
    var l, u := t[..i], [t[i]] + (t[i + 1..] + r);
    OpAtIs(t);
    HeaderShape(b.names, b.bits, b.maxBits, t);
    Parts(t, i, r);
    hide G.ReadHeader, G.OpAt, PlainItems, Split, G.FromNames, C.BuildOk, C.ReadClause, C.ReadListed;
    hide C.ReadOp, C.ReadActs, G.Actions, C.ApplyAll, Before, SameList, NoSpace, NoOps;
    ListedAgrees(b, l, u, h.vs);
    AfterList(b, l + u, h.vs != []);
    if h.sep == 'P' || h.sep == 'M' {
      assert false;
    } else {
      TailAgrees(b, caps, h.vs, C.ReadListed(b, l + u).value.0, h.sep, h.rest, r);
    }
  }

  // ---------- when a clause means the same ----------

  lemma {:induction false} ApplyAllAt(caps: Caps, list: set<nat>, acts: seq<C.Action>)
    ensures |C.ApplyAll(caps, list, acts)| == |caps|
    ensures forall v :: 0 <= v < |caps| && v !in list ==> C.ApplyAll(caps, list, acts)[v] == caps[v]
    decreases |acts|
  {
    if acts != [] {
      ApplyAllAt(C.Apply(caps, list, acts[0]), list, acts[1..]);
    }
  }

  /** After an operator that sets, what the listed values had before does not matter. */
  lemma SetsForgets(caps: Caps, list: set<nat>, acts: seq<C.Action>)
    requires Sets(acts) && C.IsAct(acts[0].op)
    ensures |C.ApplyAll(caps, list, acts)| == |C.ApplyAll(Empty(|caps|), list, acts)| == |caps|
    ensures forall v :: 0 <= v < |caps| && v in list ==>
      C.ApplyAll(caps, list, acts)[v] == C.ApplyAll(Empty(|caps|), list, acts)[v]
  {
    var one, other := C.Apply(caps, list, acts[0]), C.Apply(Empty(|caps|), list, acts[0]);
    assert forall v :: 0 <= v < |caps| && v in list ==> one[v] == other[v];
    SameOnList(one, other, list, acts[1..]);
  }

  lemma {:induction false} SameOnList(caps: Caps, caps': Caps, list: set<nat>, acts: seq<C.Action>)
    requires |caps| == |caps'| && forall v :: 0 <= v < |caps| && v in list ==> caps[v] == caps'[v]
    ensures |C.ApplyAll(caps, list, acts)| == |C.ApplyAll(caps', list, acts)| == |caps|
    ensures forall v :: 0 <= v < |caps| && v in list ==> C.ApplyAll(caps, list, acts)[v] == C.ApplyAll(caps', list, acts)[v]
    decreases |acts|
  {
    if acts != [] {
      SameOnList(C.Apply(caps, list, acts[0]), C.Apply(caps', list, acts[0]), list, acts[1..]);
    }
  }

  /** Nothing is raised outside the list. */
  predicate LoweredOutside(caps: Caps, list: set<nat>) {
    forall v :: 0 <= v < |caps| && v !in list ==> caps[v] == LOWERED
  }

  /** The two readings of a clause coincide exactly when its first operator only adds or
      lowers, or there is nothing to forget outside its list. */
  lemma AgreesWhen(caps: Caps, cl: C.Listed)
    requires cl.acts != [] && C.IsAct(cl.acts[0].op)
    ensures C.ApplyAll(Before(caps, cl.acts), cl.list, cl.acts) == C.ApplyAll(caps, cl.list, cl.acts) <==>
      !Sets(cl.acts) || LoweredOutside(caps, cl.list)
  {
    var go, c := C.ApplyAll(Before(caps, cl.acts), cl.list, cl.acts), C.ApplyAll(caps, cl.list, cl.acts);
    ApplyAllAt(caps, cl.list, cl.acts);
    ApplyAllAt(Before(caps, cl.acts), cl.list, cl.acts);
    if Sets(cl.acts) {
      SetsForgets(caps, cl.list, cl.acts);
      assert go == c <==> forall v :: 0 <= v < |caps| ==> go[v] == c[v];
    }
  }

  /** For every clause that both parsers accept, over any set: they agree exactly then. */
  lemma ClausesAgree(b: C.Build, caps: Caps, t: string)
    requires C.BuildOk(b) && 0 < b.maxBits && |caps| == b.bits
    requires t != "" && NoSpace(t) && PlainClause(t)
    requires G.ReadClause(b.names, b.maxBits, caps, t).Some? && C.ReadClause(b, t).Some?
    ensures var (cl, rest) := C.ReadClause(b, t).value;
      && rest == "" && cl.acts != []
      && (G.ReadClause(b.names, b.maxBits, caps, t) == Some(C.ApplyAll(caps, cl.list, cl.acts)) <==>
          cl.acts[0].op == '+' || cl.acts[0].op == '-' || LoweredOutside(caps, cl.list))
  {
    assert t + "" == t;
    ClauseAgrees(b, caps, t, "");
    var cl := C.ReadClause(b, t).value.0;
    ReadOps(b, t);
    AgreesWhen(caps, cl);
    hide G.ReadClause, C.ReadClause, C.ApplyAll, Before, LoweredOutside, PlainClause;
  }

  /** Every clause that C accepts has operators that it knows. */
  lemma ReadOps(b: C.Build, t: string)
    requires C.BuildOk(b) && t != "" && C.ReadClause(b, t).Some?
    ensures var acts := C.ReadClause(b, t).value.0.acts; acts != [] && C.IsAct(acts[0].op)
  {
    hide C.ReadListed;
    AfterList(b, t, C.IsWordChar(t[0]));
    hide C.ReadClause, C.BuildOk, C.IsAct;
    var u := C.ReadListed(b, t).value.1;
    var o := C.ReadOp(C.IsWordChar(t[0]), u).value;
    hide C.ReadOp;
    FirstOp(C.IsWordChar(t[0]), o.0, o.1);
  }

  lemma FirstOp(listed: bool, op: char, s: string)
    requires C.ReadActs(listed, op, s).Some?
    ensures var acts := C.ReadActs(listed, op, s).value.0; acts != [] && acts[0].op == op
  {
    hide ReadFlags;
  }

  // ---------- whole texts ----------

  /** What C's clauses mean to Go: each that sets starts from nothing. */
  function Forgetting(caps: Caps, cls: seq<C.Listed>): Caps
    decreases |cls|
  {
    if cls == [] then caps
    else Forgetting(C.ApplyAll(Before(caps, cls[0].acts), cls[0].list, cls[0].acts), cls[1..])
  }

  predicate PlainText(ts: seq<string>) {
    forall i :: 0 <= i < |ts| ==> PlainClause(ts[i])
  }

  /** For every text that both accept, and from every set: Go reads C's clauses, forgetting. */
  lemma {:induction false} ReadsForgetting(b: C.Build, caps: Caps, s: string)
    requires C.BuildOk(b) && 0 < b.maxBits && |caps| == b.bits && PlainText(Tokens(s))
    requires G.ReadClauses(b.names, b.maxBits, caps, Tokens(s)).Some? && C.ReadText(b, s).Some?
    ensures G.ReadClauses(b.names, b.maxBits, caps, Tokens(s)) == Some(Forgetting(caps, C.ReadText(b, s).value))
    decreases |s|
  {
    hide C.ReadClause, G.ReadClause, PlainClause, C.BuildOk, C.ApplyAll, Before;
    if s == "" {
    } else if IsSpace(s[0]) {
      ReadsForgetting(b, caps, s[1..]);
    } else {
      var n := WordLen(s);
      var t, r := s[..n], s[n..];
      assert s == t + r && Tokens(s) == [t] + Tokens(r);
      assert Tokens(s)[0] == t && Tokens(s)[1..] == Tokens(r);
      ClauseAgrees(b, caps, t, r);
      var cl := C.ReadClause(b, s).value.0;
      var next := C.ApplyAll(Before(caps, cl.acts), cl.list, cl.acts);
      ApplyAllAt(Before(caps, cl.acts), cl.list, cl.acts);
      BeforeLength(caps, cl.acts);
      hide WordLen, Tokens, NoSpace;
      ReadsForgetting(b, next, r);
      assert ([cl] + C.ReadText(b, r).value)[1..] == C.ReadText(b, r).value;
    }
  }

  lemma BeforeLength(caps: Caps, acts: seq<C.Action>)
    ensures |Before(caps, acts)| == |caps|
  {
  }

  /** No clause that sets finds anything raised outside its list. */
  predicate Steady(caps: Caps, cls: seq<C.Listed>)
    decreases |cls|
  {
    cls == [] ||
    ((!Sets(cls[0].acts) || LoweredOutside(caps, cls[0].list)) && Steady(C.ApplyAll(caps, cls[0].list, cls[0].acts), cls[1..]))
  }

  lemma {:induction false} SteadyForgets(caps: Caps, cls: seq<C.Listed>)
    requires Steady(caps, cls)
    requires forall k :: 0 <= k < |cls| ==> cls[k].acts != [] && C.IsAct(cls[k].acts[0].op)
    ensures Forgetting(caps, cls) == C.Denote(caps, cls)
    decreases |cls|
  {
    hide C.IsAct, C.ApplyAll, Before, LoweredOutside, Sets;
    if cls != [] {
      assert cls[0].acts != [] && C.IsAct(cls[0].acts[0].op);
      AgreesWhen(caps, cls[0]);
      SteadyForgets(C.ApplyAll(caps, cls[0].list, cls[0].acts), cls[1..]);
    }
  }

  lemma {:induction false} TextOps(b: C.Build, s: string)
    requires C.BuildOk(b) && C.ReadText(b, s).Some?
    ensures forall cl :: cl in C.ReadText(b, s).value ==> cl.acts != [] && C.IsAct(cl.acts[0].op)
    decreases |s|
  {
    hide C.ReadClause, C.IsAct, C.BuildOk;
    if s == "" {
    } else if IsSpace(s[0]) {
      TextOps(b, s[1..]);
    } else {
      ReadOps(b, s);
      TextOps(b, C.ReadClause(b, s).value.1);
    }
  }

  /** A text that both accept and in which no clause that sets has anything to forget, both
      read as the same set. */
  lemma TextsAgree(b: C.Build, s: string)
    requires C.BuildOk(b) && 0 < b.maxBits && PlainText(Tokens(s))
    requires G.Parsed(b.names, b.maxBits, b.bits, s).Some? && C.Parsed(b, s).Some?
    ensures G.Parsed(b.names, b.maxBits, b.bits, s) == Some(Forgetting(Empty(b.bits), C.ReadText(b, s).value))
    ensures Steady(Empty(b.bits), C.ReadText(b, s).value) ==> G.Parsed(b.names, b.maxBits, b.bits, s) == C.Parsed(b, s)
  {
    hide G.ReadClauses, C.ReadText, Tokens, Steady, Forgetting, C.Denote, PlainText, C.IsAct;
    ReadsForgetting(b, Empty(b.bits), s);
    TextOps(b, s);
    if Steady(Empty(b.bits), C.ReadText(b, s).value) {
      SteadyForgets(Empty(b.bits), C.ReadText(b, s).value);
    }
  }

  /** That is so when only the first clause sets. */
  lemma OnlyFirstSets(n: nat, cls: seq<C.Listed>)
    requires forall k :: 1 <= k < |cls| ==> !Sets(cls[k].acts)
    ensures Steady(Empty(n), cls)
  {
    hide Sets;
    if cls != [] {
      NoneSets(C.ApplyAll(Empty(n), cls[0].list, cls[0].acts), cls[1..]);
    }
  }

  lemma {:induction false} NoneSets(caps: Caps, cls: seq<C.Listed>)
    requires forall k :: 0 <= k < |cls| ==> !Sets(cls[k].acts)
    ensures Steady(caps, cls)
    decreases |cls|
  {
    hide Sets;
    if cls != [] {
      NoneSets(C.ApplyAll(caps, cls[0].list, cls[0].acts), cls[1..]);
    }
  }
}
