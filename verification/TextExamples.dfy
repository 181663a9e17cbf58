/** The examples in the Go package's documentation of its parser, and letters to flags. */
module TextExamples {
  import opened Words
  import opened CapSet
  import opened Strings
  import opened TextModel
  import opened GoText
  import TextForms
  import CText

  const EIP := Pat(true, true, true)

  /** A text of two words. */
  lemma TwoWords(names: seq<string>, m: nat, n: nat, t0: string, t1: string, mid: Caps)
    requires t0 != "" && NoSpace(t0) && t1 != "" && NoSpace(t1)
    requires ReadClause(names, m, Empty(n), t0) == Some(mid)
    ensures Parsed(names, m, n, t0 + " " + t1) == ReadClause(names, m, mid, t1)
  {
    hide Tokens, Empty, NoSpace;
    assert Join([t1], ' ') == t1;
    assert [t0, t1][1..] == [t1];
    assert Join([t0, t1], ' ') == t0 + [' '] + t1;
    TokensJoin([t0, t1]);
    hide Join, ReadClause;
    assert [t1][1..] == [];
    var r := ReadClause(names, m, mid, t1);
    if r.Some? {
      assert ReadClauses(names, m, r.value, []) == r;
    }
    assert ReadClauses(names, m, mid, [t1]) == r;
  }

  lemma OneWord(names: seq<string>, m: nat, n: nat, t: string)
    requires t != "" && NoSpace(t)
    ensures Parsed(names, m, n, t) == ReadClause(names, m, Empty(n), t)
  {
    hide Tokens, Empty, NoSpace;
    assert Join([t], ' ') == t;
    TokensJoin([t]);
    hide Join;
    var r := ReadClause(names, m, Empty(n), t);
    hide ReadClause;
    assert [t][1..] == [];
    if r.Some? {
      assert ReadClauses(names, m, r.value, []) == r;
    }
  }

  lemma RaisedFirst(n: nat, m: nat, p: Pat, q: Pat)
    requires m <= n
    ensures RaiseIn(Uniform(n, m, p), FirstValues(m), q) == Uniform(n, m, Plus(p, q))
    ensures RaiseIn(Empty(n), FirstValues(m), q) == Uniform(n, m, q)
  {
    assert forall v :: v in FirstValues(m) <==> 0 <= v < m by {
      forall v | 0 <= v < m
        ensures v in FirstValues(m)
      {
        assert FirstValues(m)[v] == v;
      }
    }
    hide FirstValues, Plus;
    assert forall p :: Plus(LOWERED, p) == p;
  }

  lemma AllHeader(names: seq<string>, m: nat, limit: nat, op: char, rest: string)
    requires IsOp(op)
    ensures ReadHeader(names, limit, m, "all" + ([op] + rest)) == Some(Header(FirstValues(m), op, rest))
  {
    var t := "all" + ([op] + rest);
    OpAtPrefix("all", [op] + rest);
    assert t[..3] == "all" && t[3] == op && t[4..] == rest;
    hide OpAt;
  }

  lemma Letters()
    ensures ReadFlags("") == (LOWERED, "") && ReadFlags("e") == (Pat(true, false, false), "")
    ensures ReadFlags("p") == (Pat(false, true, false), "") && ReadFlags("i") == (Pat(false, false, true), "")
    ensures ReadFlags("ei") == (Pat(true, false, true), "") && ReadFlags("pi") == (Pat(false, true, true), "")
    ensures ReadFlags("pie") == (EIP, "") && ReadFlags("eip") == (EIP, "")
  {
    assert "ei"[1..] == "i" && "pi"[1..] == "i" && "pie"[1..] == "ie" && "ie"[1..] == "e" && "eip"[1..] == "ip" && "ip"[1..] == "p";
    assert "e"[1..] == "" && "p"[1..] == "" && "i"[1..] == "";
  }

  lemma SetThenRaise(names: seq<string>, m: nat, n: nat, f: string, p: Pat, g: string, q: Pat)
    requires 0 < m <= n && ReadFlags(f) == (p, "") && f != "" && IsFlag(f[0]) && NoSpace(f)
    requires ReadFlags(g) == (q, "") && q != LOWERED && NoSpace(g)
    ensures Parsed(names, m, n, "=" + f + " " + ("all+" + g)) == Some(Uniform(n, m, Plus(p, q)))
  {
    SetAll(names, m, n, f, p);
    RaiseAll(names, m, n, g, p, q);
    hide ReadFlags, ReadClause, Parsed, Uniform;
    assert NoSpace("=" + f) && NoSpace("all+" + g);
    TwoWords(names, m, n, "=" + f, "all+" + g, Uniform(n, m, p));
  }

  lemma First1(names: seq<string>, m: nat, n: nat)
    requires 0 < m <= n
    ensures Parsed(names, m, n, "=p all+ei") == Some(Uniform(n, m, EIP))
  {
    Letters();
    hide ReadFlags, Parsed, Uniform;
    SetThenRaise(names, m, n, "p", Pat(false, true, false), "ei", Pat(true, false, true));
    assert "=" + "p" + " " + ("all+" + "ei") == "=p all+ei";
  }

  lemma First2(names: seq<string>, m: nat, n: nat)
    requires 0 < m <= n
    ensures Parsed(names, m, n, "=pi all+e") == Some(Uniform(n, m, EIP))
  {
    Letters();
    hide ReadFlags, Parsed, Uniform;
    SetThenRaise(names, m, n, "pi", Pat(false, true, true), "e", Pat(true, false, false));
    assert "=" + "pi" + " " + ("all+" + "e") == "=pi all+e";
  }

  lemma First3(names: seq<string>, m: nat, n: nat)
    requires 0 < m <= n
    ensures Parsed(names, m, n, "all=pie") == Some(Uniform(n, m, EIP))
    ensures Parsed(names, m, n, "=eip") == Some(Uniform(n, m, EIP))
  {
    Letters();
    hide ReadFlags, Parsed, ReadClause, Uniform;
    assert "=" + "eip" == "=eip" && "all=" + "pie" == "all=pie";
    SetAll(names, m, n, "eip", EIP);
    OneWord(names, m, n, "=eip");
    AllSets(names, m, n, "pie", EIP);
    OneWord(names, m, n, "all=pie");
  }

  /** The four texts of the first line all mean everything, and the last is the canonical one. */
  lemma FirstLine(names: seq<string>, m: nat, n: nat)
    requires 0 < m <= n
    ensures Parsed(names, m, n, "=p all+ei") == Some(Uniform(n, m, EIP))
    ensures Parsed(names, m, n, "all=pie") == Some(Uniform(n, m, EIP))
    ensures Parsed(names, m, n, "=pi all+e") == Some(Uniform(n, m, EIP))
    ensures Parsed(names, m, n, "=eip") == Some(Uniform(n, m, EIP))
    ensures TextOf(names, Uniform(n, m, EIP), m) == "=eip"
  {
    hide *;
    First1(names, m, n);
    First2(names, m, n);
    First3(names, m, n);
    AllRaised(names, m, n);
  }

  lemma AllRaised(names: seq<string>, m: nat, n: nat)
    requires 0 < m <= n
    ensures TextOf(names, Uniform(n, m, EIP), m) == "=eip"
  {
    TextForms.UniformText(names, n, m, EIP);
    SetTexts();
    hide *;
  }

  lemma SetTexts()
    ensures "=" + FlagText(EIP) == "=eip" && "=" + FlagText(LOWERED) == "="
    ensures "=" + FlagText(Pat(false, false, true)) == "=i"
  {
  }

  /** A clause for one named value, up to its first operator. */
  lemma NameClause(names: seq<string>, m: nat, caps: Caps, v: nat, a: string)
    requires TableOk(names) && v < |names| && v < |caps| && a != "" && IsOp(a[0])
    ensures ReadClause(names, m, caps, names[v] + a) == Actions(caps, m, a[0], [v], a[1..])
  {
    var cl := Clause([v], '=', LOWERED, LOWERED);
    HeaderOf(names, |caps|, m, cl, a);
    hide ReadHeader, Actions;
    assert NamesOf(names, [v]) == [names[v]];
  }

  /** One operator, and one followed by a second. */
  lemma OneAction(caps: Caps, m: nat, op: char, v: nat, f: string, p: Pat)
    requires ReadFlags(f) == (p, "") && (op == '=' || p != LOWERED)
    ensures Actions(caps, m, op, [v], f) == Act(caps, m, op, [v], p)
  {
    hide Act;
  }

  lemma TwoActions(caps: Caps, m: nat, v: nat, f: string, p: Pat, g: string, q: Pat)
    requires ReadFlags(f + "-" + g) == (p, "-" + g) && ReadFlags(g) == (q, "") && q != LOWERED
    ensures Actions(caps, m, '=', [v], f + "-" + g) == Some(LowerIn(RaiseIn(Empty(|caps|), [v], p), [v], q))
  {
    assert ("-" + g)[0] == '-' && ("-" + g)[1..] == g;
    OneAction(RaiseIn(Empty(|caps|), [v], p), m, '-', v, g, q);
    hide ReadFlags, RaiseIn, LowerIn, Empty;
  }

  lemma MoreLetters()
    ensures ReadFlags("ip-p") == (Pat(false, true, true), "-p") && ReadFlags("-p") == (LOWERED, "-p")
    ensures ReadFlags("pie-pie") == (EIP, "-pie")
  {
    assert "ip-p"[1..] == "p-p" && "p-p"[1..] == "-p";
    assert "pie-pie"[1..] == "ie-pie" && "ie-pie"[1..] == "e-pie" && "e-pie"[1..] == "-pie";
    assert ReadFlags("-p") == (LOWERED, "-p") && ReadFlags("-pie") == (LOWERED, "-pie");
    assert ReadFlags("p-p") == (Pat(false, true, false), "-p");
    assert ReadFlags("e-pie") == (Pat(true, false, false), "-pie");
    assert ReadFlags("ie-pie") == (Pat(true, false, true), "-pie");
  }

  /** What the clauses of the second and third line make of any set. */
  lemma Raised(n: nat, v: nat, p: Pat)
    requires v < n
    ensures RaiseIn(Empty(n), [v], p) == Empty(n)[v := p]
  {
  }

  lemma Lowered(n: nat, v: nat, p: Pat, q: Pat)
    requires v < n
    ensures LowerIn(Empty(n)[v := p], [v], q) == Empty(n)[v := Minus(p, q)]
    ensures Empty(n)[v := LOWERED] == Empty(n)
  {
  }

  /** A set that one clause for one value makes of any set. */
  lemma OneSet(names: seq<string>, m: nat, caps: Caps, v: nat, a: string, f: string, p: Pat)
    requires TableOk(names) && v < |names| && v < |caps| && a == "=" + f && ReadFlags(f) == (p, "")
    ensures ReadClause(names, m, caps, names[v] + a) == Some(Empty(|caps|)[v := p])
  {
    assert a[0] == '=' && a[1..] == f;
    NameClause(names, m, caps, v, a);
    OneAction(caps, m, '=', v, f, p);
    Raised(|caps|, v, p);
    hide ReadFlags, ReadClause, Actions, RaiseIn, Empty, TableOk;
  }

  lemma SetAndLowered(names: seq<string>, m: nat, caps: Caps, v: nat, a: string, f: string, p: Pat, g: string, q: Pat)
    requires TableOk(names) && v < |names| && v < |caps| && a == "=" + (f + "-" + g)
    requires ReadFlags(f + "-" + g) == (p, "-" + g) && ReadFlags(g) == (q, "") && q != LOWERED
    ensures ReadClause(names, m, caps, names[v] + a) == Some(Empty(|caps|)[v := Minus(p, q)])
  {
    assert a[0] == '=' && a[1..] == f + "-" + g;
    NameClause(names, m, caps, v, a);
    TwoActions(caps, m, v, f, p, g, q);
    Raised(|caps|, v, p);
    Lowered(|caps|, v, p, q);
    hide ReadFlags, ReadClause, Actions, RaiseIn, LowerIn, Empty, TableOk, Minus;
  }

  lemma NameIsWord(names: seq<string>, v: nat, a: string)
    requires TableOk(names) && v < |names| && NoSpace(a)
    ensures names[v] + a != "" && NoSpace(names[v] + a)
  {
    assert NameOk(names[v]);
    assert forall i :: 0 <= i < |names[v]| ==> IsNameChar(names[v][i]);
  }

  lemma SetAfterSet(names: seq<string>, m: nat, n: nat, v: nat, u: nat)
    requires TableOk(names) && v < |names| && u < |names| && v < n && u < n
    ensures Parsed(names, m, n, (names[u] + "=p") + " " + (names[v] + "=i")) == Some(Empty(n)[v := Pat(false, false, true)])
  {
    var mid := Empty(n)[u := Pat(false, true, false)];
    Letters();
    NameIsWord(names, u, "=p");
    NameIsWord(names, v, "=i");
    assert |mid| == |Empty(n)| == n;
    hide ReadFlags, Parsed, ReadClause, Empty, TableOk, NoSpace;
    OneSet(names, m, Empty(n), u, "=p", "p", Pat(false, true, false));
    OneSet(names, m, mid, v, "=i", "i", Pat(false, false, true));
    TwoWords(names, m, n, names[u] + "=p", names[v] + "=i", mid);
  }

  lemma SetLess(names: seq<string>, m: nat, n: nat, v: nat, a: string, f: string, p: Pat, g: string, q: Pat)
    requires TableOk(names) && v < |names| && v < n && a == "=" + (f + "-" + g) && NoSpace(a)
    requires ReadFlags(f + "-" + g) == (p, "-" + g) && ReadFlags(g) == (q, "") && q != LOWERED
    ensures Parsed(names, m, n, names[v] + a) == Some(Empty(n)[v := Minus(p, q)])
  {
    NameIsWord(names, v, a);
    assert |Empty(n)| == n;
    hide ReadFlags, Parsed, ReadClause, Empty, TableOk, NoSpace, Minus;
    SetAndLowered(names, m, Empty(n), v, a, f, p, g, q);
    OneWord(names, m, n, names[v] + a);
  }

  lemma SetOne(names: seq<string>, m: nat, n: nat, v: nat)
    requires TableOk(names) && v < |names| && 3 <= m <= n && v < m
    ensures Parsed(names, m, n, names[v] + "=i") == Some(Empty(n)[v := Pat(false, false, true)])
    ensures TextOf(names, Empty(n)[v := Pat(false, false, true)], m) == names[v] + "=i"
  {
    Letters();
    TextForms.SingleText(names, n, m, v, Pat(false, false, true));
    SetTexts();
    NameIsWord(names, v, "=i");
    assert |Empty(n)| == n;
    hide ReadFlags, TextOf, FlagText, Parsed, ReadClause, Empty, TableOk, NoSpace;
    OneSet(names, m, Empty(n), v, "=i", "i", Pat(false, false, true));
    OneWord(names, m, n, names[v] + "=i");
  }

  /** The three texts of the second line, for any two names in the place of cap_chown and
      cap_setuid, mean the same, and the last is the canonical one. */
  lemma SecondLine(names: seq<string>, m: nat, n: nat, chown: nat, setuid: nat)
    requires TableOk(names) && chown < |names| && setuid < |names| && 3 <= m <= n && chown < m && setuid < n
    ensures var caps := Empty(n)[chown := Pat(false, false, true)];
      && Parsed(names, m, n, (names[setuid] + "=p") + " " + (names[chown] + "=i")) == Some(caps)
      && Parsed(names, m, n, names[chown] + "=ip-p") == Some(caps)
      && Parsed(names, m, n, names[chown] + "=i") == Some(caps)
      && TextOf(names, caps, m) == names[chown] + "=i"
  {
    Letters();
    MoreLetters();
    assert Minus(Pat(false, true, true), Pat(false, true, false)) == Pat(false, false, true);
    assert "ip" + "-" + "p" == "ip-p" && "=" + "ip-p" == "=ip-p" && "-" + "p" == "-p";
    hide ReadFlags, TextOf, Parsed, Empty, TableOk, Minus;
    SetLess(names, m, n, chown, "=ip-p", "ip", Pat(false, true, true), "p", Pat(false, true, false));
    SetAfterSet(names, m, n, chown, setuid);
    SetOne(names, m, n, chown);
  }

  lemma AllLowered(names: seq<string>, m: nat, n: nat)
    requires 0 < m <= n
    ensures Parsed(names, m, n, "all=") == Some(Empty(n))
    ensures Parsed(names, m, n, "=") == Some(Empty(n))
    ensures TextOf(names, Empty(n), m) == "="
  {
    assert Uniform(n, m, LOWERED) == Empty(n);
    TextForms.UniformText(names, n, m, LOWERED);
    SetTexts();
    hide FlagText, Uniform, Empty;
    LoweredByAll(names, m, n);
    hide *;
  }

  lemma LoweredByAll(names: seq<string>, m: nat, n: nat)
    requires 0 < m <= n
    ensures Parsed(names, m, n, "all=") == Some(Uniform(n, m, LOWERED))
    ensures Parsed(names, m, n, "=") == Some(Uniform(n, m, LOWERED))
  {
    Letters();
    hide ReadFlags, Parsed, ReadClause, Empty, Uniform;
    AllSets(names, m, n, "", LOWERED);
    BareEquals(names, m, n);
    assert "all=" + "" == "all=";
    OneWord(names, m, n, "all=");
    OneWord(names, m, n, "=");
  }

  /** The four texts of the third line mean the empty set, and the last is the canonical one. */
  lemma ThirdLine(names: seq<string>, m: nat, n: nat, chown: nat, setuid: nat)
    requires TableOk(names) && chown < |names| && setuid < |names| && 0 < m <= n && chown < n && setuid < n
    ensures Parsed(names, m, n, names[chown] + "=-p") == Some(Empty(n))
    ensures Parsed(names, m, n, "all=") == Some(Empty(n))
    ensures Parsed(names, m, n, names[setuid] + "=pie-pie") == Some(Empty(n))
    ensures Parsed(names, m, n, "=") == Some(Empty(n))
    ensures TextOf(names, Empty(n), m) == "="
  {
    hide *;
    AllLowered(names, m, n);
    LoweredOne(names, m, n, chown);
    LoweredAll(names, m, n, setuid);
  }

  lemma LoweredOne(names: seq<string>, m: nat, n: nat, v: nat)
    requires TableOk(names) && v < |names| && v < n
    ensures Parsed(names, m, n, names[v] + "=-p") == Some(Empty(n))
  {
    Letters();
    MoreLetters();
    Lowered(n, v, LOWERED, LOWERED);
    assert Minus(LOWERED, Pat(false, true, false)) == LOWERED;
    assert "" + "-" + "p" == "-p" && "=" + "-p" == "=-p" && "-" + "p" == "-p";
    hide ReadFlags, Parsed, Empty, TableOk, Minus;
    SetLess(names, m, n, v, "=-p", "", LOWERED, "p", Pat(false, true, false));
  }

  lemma LoweredAll(names: seq<string>, m: nat, n: nat, v: nat)
    requires TableOk(names) && v < |names| && v < n
    ensures Parsed(names, m, n, names[v] + "=pie-pie") == Some(Empty(n))
  {
    Letters();
    MoreLetters();
    Lowered(n, v, LOWERED, LOWERED);
    assert Minus(EIP, EIP) == LOWERED;
    assert "pie" + "-" + "pie" == "pie-pie" && "=" + "pie-pie" == "=pie-pie" && "-" + "pie" == "-pie";
    hide ReadFlags, Parsed, Empty, TableOk, Minus;
    SetLess(names, m, n, v, "=pie-pie", "pie", EIP, "pie", EIP);
  }

  lemma BareEquals(names: seq<string>, m: nat, n: nat)
    ensures ReadClause(names, m, Empty(n), "=") == Some(Uniform(n, m, LOWERED))
  {
    Letters();
    assert OpAt("=") == 0 && "="[..0] == "" && "="[1..] == "";
    hide ReadFlags, Uniform;
  }

  lemma SetAll(names: seq<string>, m: nat, n: nat, flags: string, p: Pat)
    requires ReadFlags(flags) == (p, "") && flags != "" && IsFlag(flags[0])
    ensures ReadClause(names, m, Empty(n), "=" + flags) == Some(Uniform(n, m, p))
  {
    var t := "=" + flags;
    assert t[0] == '=' && t[1..] == flags && t[1] == flags[0] && OpAt(t) == 0 && t[..0] == "";
    hide ReadFlags, Uniform;
  }

  lemma AllText(flags: string)
    ensures "all+" + flags == "all" + (['+'] + flags) && "all=" + flags == "all" + (['='] + flags)
  {
  }

  lemma RaiseAll(names: seq<string>, m: nat, n: nat, flags: string, p: Pat, q: Pat)
    requires 0 < m <= n && ReadFlags(flags) == (q, "") && q != LOWERED
    ensures ReadClause(names, m, Uniform(n, m, p), "all+" + flags) == Some(Uniform(n, m, Plus(p, q)))
  {
    RaisedFirst(n, m, p, q);
    assert |FirstValues(m)| == m && |Uniform(n, m, p)| == n;
    hide ReadFlags, ReadHeader, FirstValues, RaiseIn, Uniform, Plus, Empty, OpAt, IsOp;
    AllHeader(names, m, n, '+', flags);
    AllText(flags);
  }

  lemma AllSets(names: seq<string>, m: nat, n: nat, flags: string, p: Pat)
    requires 0 < m <= n && ReadFlags(flags) == (p, "")
    ensures ReadClause(names, m, Empty(n), "all=" + flags) == Some(Uniform(n, m, p))
  {
    RaisedFirst(n, m, p, p);
    assert |FirstValues(m)| == m;
    hide ReadFlags, ReadHeader, FirstValues, RaiseIn, Uniform, OpAt, IsOp;
    AllHeader(names, m, n, '=', flags);
    AllText(flags);
  }
}
