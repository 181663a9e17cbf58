/** The Go printer and parser as they run, over a set held in words. */
module GoTextCode {
  import opened Bits
  import opened Words
  import opened CapSet
  import opened Strings
  import opened TextModel
  import opened GoText
  import opened Printing

  const COMBOS: seq<string> := ["", "e", "p", "ep", "i", "ei", "ip", "eip"]

  lemma ComboIsFlagText(code: nat)
    requires code < 8
    ensures COMBOS[code] == FlagText(PatOf(code))
  {
  }

  /** Count the flag combinations of a range of values and choose the background. */
  method Histo(c: Set, bins: array<nat>, patterns: array<nat>, from: nat, limit: nat) returns (m: nat)
    requires from <= limit <= 32 * |c.flat| && limit <= patterns.Length
    requires bins != patterns && bins[..] == Zeros(8)
    modifies bins, patterns
    ensures bins[..] == Tallied(c.View(), from, limit)
    ensures patterns[..] == Patterned(old(patterns[..]), c.View(), from, limit)
    ensures m == Scan(c.View(), from, limit, 7, 7) && m < 8
  {
    hide Count, Patterned;
    ghost var caps := c.View();
    Tally(c, bins, patterns, from, limit);
    assert forall k :: 0 <= k < 8 ==> bins[..][k] == Count(caps, k, from, limit);
    m := 7;
    var t := m;
    while t > 0
      invariant 0 <= t <= m <= 7
      invariant Scan(caps, from, limit, 7, 7) == Scan(caps, from, limit, t, m)
    {
      t := t - 1;
      if bins[t] >= bins[m] {
        m := t;
      }
    }
  }

  method Tally(c: Set, bins: array<nat>, patterns: array<nat>, from: nat, limit: nat)
    requires from <= limit <= 32 * |c.flat| && limit <= patterns.Length
    requires bins != patterns && bins[..] == Zeros(8)
    modifies bins, patterns
    ensures bins[..] == Tallied(c.View(), from, limit)
    ensures patterns[..] == Patterned(old(patterns[..]), c.View(), from, limit)
  {
    ghost var caps := c.View();
    ghost var was := patterns[..];
    TalliedNone(caps, from);
    PatternedNone(was, caps, from);
    hide Tallied, Patterned, Zeros, ViewOf, CodeOf, PatternOf;
    for v := from to limit
      invariant bins[..] == Tallied(caps, from, v)
      invariant patterns[..] == Patterned(was, caps, from, v)
    {
      var x := PatternOf(c.flat, v);
      TalliedNext(caps, from, v);
      PatternedNext(was, caps, from, v);
      Bump(bins, x, Tallied(caps, from, v));
      patterns[v] := x;
    }
  }

  ghost function Patterned(was: seq<nat>, caps: Caps, from: nat, v: nat): (patterns: seq<nat>)
    requires from <= v <= |caps| && v <= |was|
    ensures |patterns| == |was|
  {
    seq(|was|, i requires 0 <= i < |was| => if from <= i < v then CodeOf(caps[i]) else was[i])
  }

  lemma PatternedNone(was: seq<nat>, caps: Caps, from: nat)
    requires from <= |caps| && from <= |was|
    ensures Patterned(was, caps, from, from) == was
  {
  }

  lemma PatternedNext(was: seq<nat>, caps: Caps, from: nat, v: nat)
    requires from <= v < |caps| && v < |was|
    ensures Patterned(was, caps, from, v + 1) == Patterned(was, caps, from, v)[v := CodeOf(caps[v])]
  {
  }

  /** The names of the values that have one combination, in order. */
  method List(names: seq<string>, patterns: array<nat>, i: nat, from: nat, ghost caps: Caps) returns (list: seq<string>)
    requires from <= patterns.Length <= |caps| && i < 8 && (from == 0 || i > 0)
    requires patterns[..] == Patterned(Zeros(patterns.Length), caps, from, patterns.Length)
    ensures list == NamesOf(names, Members(caps, PatOf(i), from, patterns.Length))
  {
    hide NamesOf, Members, CodeOf, PatOf;
    list := [];
    ListNone(names, caps, i, from);
    for j := 0 to patterns.Length
      invariant list == NamesOf(names, Members(caps, PatOf(i), from, if j < from then from else j))
    {
      assert patterns[j] == patterns[..][j];
      if patterns[j] == i {
        list := list + [NameOf(names, j)];
      }
      if j >= from {
        ListNext(names, caps, i, from, j);
      }
    }
  }

  /** The clauses for the named values. */
  method NamedTexts(names: seq<string>, patterns: array<nat>, bins: array<nat>, m: nat, ghost caps: Caps)
    returns (vs: seq<string>)
    requires TableOk(names) && m < 8 && patterns.Length <= |caps| && bins.Length == 8
    requires bins[..] == Tallied(caps, 0, patterns.Length)
    requires patterns[..] == Patterned(Zeros(patterns.Length), caps, 0, patterns.Length)
    ensures vs == ClauseTexts(names, Opening(m, NamedGroups(caps, patterns.Length, m, 8)))
  {
    hide ClauseTexts, Opening, TableOk, CodeOf, PatOf, FlagText, NamesOf, Members, Minus, NamedGroups;
    hide Count, GroupShape, Patterned;
    ghost var named := patterns.Length;
    NamedStep(caps, named, m);
    ghost var all := NamedGroups(caps, named, m, 8);
    ComboIsFlagText(m);
    vs := ["=" + COMBOS[m]];
    ghost var groups: seq<Clause> := [];
    OpeningTexts(names, m);
    var i := 8;
    while i > 0
      invariant 0 <= i <= 8
      invariant all == groups + NamedGroups(caps, named, m, i)
      invariant vs == ClauseTexts(names, Opening(m, groups))
      invariant GroupShape(groups)
    {
      i := i - 1;
      assert bins[i] == bins[..][i];
      if i == m || bins[i] == 0 {
        continue;
      }
      ghost var cl := GroupOf(caps, named, m, i);
      var list := List(names, patterns, i, 0, caps);
      vs := AddGroup(names, list, i, m, vs, groups, cl);
      groups := GroupsSnoc(groups, cl);
    }
    assert groups + [] == groups;
  }

  /** One more clause: the names of a group, what it has beyond the background, what it lacks.
      While nothing but "=" is written the first clause takes its place. */
  method AddGroup(names: seq<string>, list: seq<string>, i: nat, m: nat, vs: seq<string>,
                  ghost groups: seq<Clause>, ghost cl: Clause) returns (vs': seq<string>)
    requires TableOk(names) && i < 8 && m < 8 && i != m && GroupShape(groups)
    requires vs == ClauseTexts(names, Opening(m, groups))
    requires cl.op == '+' && list == NamesOf(names, cl.vals)
    requires cl.up == Minus(PatOf(i), PatOf(m)) && cl.down == Minus(PatOf(m), PatOf(i))
    ensures vs' == ClauseTexts(names, Opening(m, groups + [cl]))
  {
    ShortcutTest(names, m, groups, vs);
    OpeningSnoc(names, m, groups, cl);
    Leftover(i, m);
    GroupParts(names, list, cl, AndNot(i, m), AndNot(m, i));
    hide ClauseTexts, Opening, TableOk, AndNot, PatOf, NamesOf, Minus, Join, ClauseText;
    vs' := vs;
    var op, y, z := '+', "", "";
    var cf := AndNot(i, m);
    if cf != 0 {
      if |vs| == 1 && vs[0] == "=" {
        vs' := [];
        op := '=';
      }
      y := [op] + COMBOS[cf];
    }
    cf := AndNot(m, i);
    if cf != 0 {
      z := "-" + COMBOS[cf];
    }
    vs' := vs' + [Join(list, ',') + y + z];
  }

  lemma GroupParts(names: seq<string>, list: seq<string>, cl: Clause, up: nat, down: nat)
    requires up < 8 && down < 8 && list == NamesOf(names, cl.vals) && cl.op == '+'
    requires cl.up == PatOf(up) && cl.down == PatOf(down)
    requires (up == 0 <==> cl.up == LOWERED) && (down == 0 <==> cl.down == LOWERED)
    ensures ClauseText(names, cl) ==
      Join(list, ',') + (if up != 0 then "+" + COMBOS[up] else "") + (if down != 0 then "-" + COMBOS[down] else "")
    ensures up != 0 ==>
      ClauseText(names, cl.(op := '='))
      == Join(list, ',') + ("=" + COMBOS[up]) + (if down != 0 then "-" + COMBOS[down] else "")
  {
    ComboIsFlagText(up);
    ComboIsFlagText(down);
    hide FlagText, PatOf, NamesOf, Join;
  }

  /** The clauses for the unnamed values. */
  method UnnamedTexts(names: seq<string>, patterns: array<nat>, bins: array<nat>, named: nat, ghost caps: Caps)
    returns (vs: seq<string>)
    requires named <= patterns.Length == |caps| && bins.Length == 8
    requires bins[..] == Tallied(caps, named, |caps|)
    requires patterns[..] == Patterned(Zeros(patterns.Length), caps, named, |caps|)
    ensures vs == ClauseTexts(names, UnnamedGroups(caps, named, 8))
  {
    vs := [];
    ghost var groups: seq<Clause> := [];
    hide CodeOf, FlagText, NamesOf, Members, UnnamedGroups, ClauseTexts, Count, PatOf, Join, Patterned;
    UnnamedStep(caps, named);
    NoTexts(names);
    var i := 7;
    while i > 0
      invariant 0 <= i <= 7
      invariant UnnamedGroups(caps, named, 8) == groups + UnnamedGroups(caps, named, i + 1)
      invariant vs == ClauseTexts(names, groups)
    {
      assert bins[i] == bins[..][i];
      if bins[i] != 0 {
        var list := List(names, patterns, i, named, caps);
        ghost var cl := UnnamedGroupOf(caps, named, i);
        UnnamedText(names, cl, i, list);
        TextsSnoc(names, groups, cl);
        vs := vs + [Join(list, ',') + "+" + COMBOS[i]];
        groups := groups + [cl];
      }
      i := i - 1;
    }
    assert groups + [] == groups;
  }

  lemma UnnamedText(names: seq<string>, cl: Clause, i: nat, list: seq<string>)
    requires 1 <= i < 8 && cl.op == '+' && cl.up == PatOf(i) && cl.down == LOWERED
    requires list == NamesOf(names, cl.vals)
    ensures ClauseText(names, cl) == Join(list, ',') + "+" + COMBOS[i]
  {
    CodeOfPat(i);
    CodeOfPat(0);
    ComboIsFlagText(i);
    hide FlagText, NamesOf, Join;
    assert ActionText(cl) == "+" + COMBOS[i];
  }

  /** The canonical text of a set. */
  method String(c: Set, names: seq<string>, maxValues: nat) returns (text: string)
    requires TableOk(names) && 0 < maxValues <= 32 * |c.flat|
    ensures text == TextOf(names, c.View(), maxValues)
  {
    ghost var caps := c.View();
    assert |caps| == 32 * |c.flat|;
    var bins := Blank(8);
    var patterns := Blank(maxValues);
    hide *;
    var m := Histo(c, bins, patterns, 0, maxValues);
    var vs := NamedTexts(names, patterns, bins, m, caps);
    var uBins := Blank(8);
    var uPatterns := Blank(32 * |c.flat|);
    var ignored := Histo(c, uBins, uPatterns, maxValues, 32 * |c.flat|);
    var us := UnnamedTexts(names, uPatterns, uBins, maxValues, caps);
    text := Join(vs + us, ' ');
    PrintedText(names, caps, maxValues, m, vs, us);
  }

  lemma PrintedText(names: seq<string>, caps: Caps, named: nat, m: nat, vs: seq<string>, us: seq<string>)
    requires named <= |caps| && m == Scan(caps, 0, named, 7, 7)
    requires vs == ClauseTexts(names, Opening(m, NamedGroups(caps, named, m, 8)))
    requires us == ClauseTexts(names, UnnamedGroups(caps, named, 8))
    ensures Join(vs + us, ' ') == TextOf(names, caps, named)
  {
    TextsConcat(names, Opening(m, NamedGroups(caps, named, m, 8)), UnnamedGroups(caps, named, 8));
  }

  lemma OpeningTexts(names: seq<string>, m: nat)
    ensures ClauseTexts(names, Opening(m, [])) == ["=" + FlagText(PatOf(m))]
  {
    var cl := Clause([], '=', PatOf(m), LOWERED);
    assert Opening(m, []) == [cl];
    assert NamesOf(names, []) == [];
    assert Join([], ',') == "";
    assert ActionText(cl) == ['='] + FlagText(PatOf(m)) + "";
    assert ClauseText(names, cl) == "=" + FlagText(PatOf(m));
  }

  /** The printer recognises an untouched empty background by its text. */
  lemma ShortcutTest(names: seq<string>, m: nat, groups: seq<Clause>, vs: seq<string>)
    requires TableOk(names) && m < 8 && GroupShape(groups)
    requires vs == ClauseTexts(names, Opening(m, groups))
    ensures |vs| == 1 && vs[0] == "=" <==> m == 0 && groups == []
  {
    CodeOfPat(m);
    CodeOfPat(0);
    if m == 0 && groups != [] {
      var cl := groups[0];
      NamesPlain(names, cl.vals);
      JoinPlain(NamesOf(names, cl.vals));
      assert IsOp('=');
      assert vs[0] == Join(NamesOf(names, cl.vals), ',') + ActionText(cl.(op := '='));
      assert vs[0][0] != '=';
    } else {
      assert vs[0] == "=" + FlagText(PatOf(m));
    }
  }

  lemma OpeningSnoc(names: seq<string>, m: nat, groups: seq<Clause>, cl: Clause)
    requires m < 8
    ensures ClauseTexts(names, Opening(m, groups + [cl])) ==
      if m == 0 && groups == [] then [ClauseText(names, cl.(op := '='))]
      else ClauseTexts(names, Opening(m, groups)) + [ClauseText(names, cl)]
  {
    if groups != [] {
      assert (groups + [cl])[1..] == groups[1..] + [cl];
    }
  }

  // ---------- the parser ----------

  /** The values of a list of names, or a failure at the first that is not one. */
  method ReadNames(names: seq<string>, limit: nat, ss: seq<string>) returns (r: Option<seq<nat>>)
    ensures r == FromNames(names, limit, ss)
    ensures r.Some? ==> forall v :: v in r.value ==> v < limit
  {
    hide FromName;
    var vs: seq<nat> := [];
    assert ss[0..] == ss && forall rest :: vs + rest == rest;
    for k := 0 to |ss|
      invariant forall v :: v in vs ==> v < limit
      invariant FromNames(names, limit, ss) ==
        match FromNames(names, limit, ss[k..]) case None => None case Some(rest) => Some(vs + rest)
    {
      NameInRange(names, limit, ss[k]);
      assert ss[k..][1..] == ss[k + 1..];
      match FromName(names, limit, ss[k]) {
        case None => return None;
        case Some(v) =>
          assert forall rest :: vs + ([v] + rest) == (vs + [v]) + rest;
          vs := vs + [v];
      }
    }
    assert ss[|ss|..] == [] && vs + [] == vs;
    return Some(vs);
  }

  lemma NameInRange(names: seq<string>, limit: nat, s: string)
    ensures FromName(names, limit, s).Some? ==> FromName(names, limit, s).value < limit
  {
  }

  /** The run of flag letters at a position. */
  method FlagRun(t: string, start: nat) returns (fl: Pat, i: nat)
    requires start <= |t|
    ensures start <= i <= |t| && ReadFlags(t[start..]) == (fl, t[i..])
  {
    fl, i := LOWERED, start;
    while i < |t| && IsFlag(t[i])
      invariant start <= i <= |t|
      invariant ReadFlags(t[start..]) == (Plus(fl, ReadFlags(t[i..]).0), ReadFlags(t[i..]).1)
    {
      assert t[i..][1..] == t[i + 1..];
      match t[i] {
        case 'e' => fl := fl.(e := true);
        case 'i' => fl := fl.(i := true);
        case _ => fl := fl.(p := true);
      }
      i := i + 1;
    }
    assert ReadFlags(t[i..]) == (LOWERED, t[i..]);
  }

  /** One operator: clear first unless it only adds or lowers, then one call per flag. */
  method RunOp(c: Set, maxValues: nat, sep: char, vs: seq<nat>, fl: Pat) returns (ok: bool)
    requires forall v :: v in vs ==> v < 32 * |c.flat|
    requires sep in {'=', 'P', 'M', '+', '-'}
    modifies c
    ensures |c.flat| == old(|c.flat|)
    ensures ok <==> Act(old(c.View()), maxValues, sep, vs, fl).Some?
    ensures ok ==> Act(old(c.View()), maxValues, sep, vs, fl) == Some(c.View())
  {
    ghost var was := c.View();
    assert |was| == 32 * |c.flat|;
    if sep == '-' {
      LowerByFlags(was, vs, fl);
      hide ViewOf, WithFlag, WithAll, LowerIn, RaiseIn;
      StoreFlags(c, false, vs, fl);
      return true;
    }
    hide ViewOf, WithFlag, WithAll, LowerIn, RaiseIn, Uniform;
    if sep != '+' {
      c.Clear();
      if sep == 'M' {
        return true;
      }
    }
    if vs == [] {
      if sep != '=' {
        return false;
      }
      ForceByFlags(|was|, maxValues, fl);
      c.ForceFlag(Effective, fl.e, maxValues);
      c.ForceFlag(Permitted, fl.p, maxValues);
      c.ForceFlag(Inheritable, fl.i, maxValues);
      return true;
    }
    RaiseByFlags(c.View(), vs, fl);
    StoreFlags(c, true, vs, fl);
    return true;
  }

  method StoreFlags(c: Set, enable: bool, vs: seq<nat>, fl: Pat)
    requires forall v :: v in vs ==> v < 32 * |c.flat|
    modifies c
    ensures |c.flat| == old(|c.flat|)
    ensures c.View() == Stored(old(c.View()), enable, vs, fl)
  {
    hide ViewOf, WithFlag;
    FirstPastNone(vs, 32 * |c.flat|);
    hide FirstPast;
    if fl.e {
      var stored := c.SetFlag(Effective, enable, vs);
    }
    if fl.p {
      var stored := c.SetFlag(Permitted, enable, vs);
    }
    if fl.i {
      var stored := c.SetFlag(Inheritable, enable, vs);
    }
  }

  /** One flag at a time, as the calls run. */
  function Stored(caps: Caps, enable: bool, vs: seq<nat>, fl: Pat): Caps {
    var c1 := if fl.e then WithFlag(caps, Effective, enable, vs) else caps;
    var c2 := if fl.p then WithFlag(c1, Permitted, enable, vs) else c1;
    if fl.i then WithFlag(c2, Inheritable, enable, vs) else c2
  }

  lemma RaiseByFlags(caps: Caps, vs: seq<nat>, fl: Pat)
    ensures Stored(caps, true, vs, fl) == RaiseIn(caps, vs, fl)
  {
  }

  lemma LowerByFlags(caps: Caps, vs: seq<nat>, fl: Pat)
    ensures Stored(caps, false, vs, fl) == LowerIn(caps, vs, fl)
  {
  }

  lemma ForceByFlags(n: nat, named: nat, fl: Pat)
    ensures
      WithAll(WithAll(WithAll(Empty(n), Effective, fl.e, named), Permitted, fl.p, named), Inheritable, fl.i, named)
      == Uniform(n, named, fl)
  {
  }

  /** One clause, applied to the set that the clauses before it built. */
  method RunClause(c: Set, names: seq<string>, maxValues: nat, t: string) returns (ok: bool)
    requires maxValues <= 32 * |c.flat|
    modifies c
    ensures |c.flat| == old(|c.flat|)
    ensures ok <==> ReadClause(names, maxValues, old(c.View()), t).Some?
    ensures ok ==> ReadClause(names, maxValues, old(c.View()), t) == Some(c.View())
  {
    ghost var was := c.View();
    ghost var limit := 32 * |c.flat|;
    assert |was| == limit;
    var h := Heading(names, 32 * |c.flat|, maxValues, t);
    if h.None? {
      return false;
    }
    var sep, vs, s := h.value.sep, h.value.vs, h.value.rest;
    var i := 0;
    assert s[0..] == s;
    while true
      invariant i <= |s| && |c.flat| == |old(c.flat)|
      invariant sep in {'=', 'P', 'M', '+', '-'}
      invariant ReadClause(names, maxValues, was, t) == Actions(c.View(), maxValues, sep, vs, s[i..])
      decreases |s| - i
    {
      hide *;
      var fl, j := FlagRun(s, i);
      OneAction(c.View(), maxValues, sep, vs, s, i, fl, j);
      if fl == LOWERED && sep != '=' {
        return false;
      }
      var done := RunOp(c, maxValues, sep, vs, fl);
      if !done {
        return false;
      }
      i := j;
      if i == |s| {
        return true;
      }
      if s[i] != '+' && s[i] != '-' {
        return false;
      }
      sep := s[i];
      i := i + 1;
    }
  }

  /** The rest of a clause from one operator to the next. */
  lemma OneAction(caps: Caps, maxValues: nat, sep: char, vs: seq<nat>, s: string, i: nat, fl: Pat, j: nat)
    requires i <= j <= |s| && ReadFlags(s[i..]) == (fl, s[j..])
    ensures Actions(caps, maxValues, sep, vs, s[i..]) ==
      if fl == LOWERED && sep != '=' then None
      else
        match Act(caps, maxValues, sep, vs, fl)
        case None => None
        case Some(c) =>
          if j == |s| then Some(c)
          else if s[j] == '+' || s[j] == '-' then Actions(c, maxValues, s[j], vs, s[j + 1..])
          else None
  {
    hide ReadFlags, Act;
    if j < |s| {
      assert s[j..][1..] == s[j + 1..];
    }
  }

  /** The values and the operator that open a clause. */
  method Heading(names: seq<string>, limit: nat, maxValues: nat, t: string) returns (r: Option<Header>)
    requires maxValues <= limit
    ensures r == ReadHeader(names, limit, maxValues, t)
    ensures r.Some? ==> r.value.sep in {'=', 'P', 'M', '+', '-'} && forall v :: v in r.value.vs ==> v < limit
  {
    hide Split, FromNames;
    var i := OpAt(t);
    if i == |t| {
      return None;
    }
    var sep, vals := t[i], t[..i];
    var vs: seq<nat> := [];
    if vals == "all" {
      vs := Every(maxValues);
    } else if vals != "" {
      var read := ReadNames(names, limit, Split(vals, ','));
      if read.None? {
        return None;
      }
      vs := read.value;
    } else if sep != '=' {
      return None;
    } else {
      if i + 2 < |t| {
        match t[i + 1] {
          case '+' => sep, i := 'P', i + 1;
          case '-' => sep, i := 'M', i + 1;
          case _ =>
        }
      }
    }
    i := i + 1;
    return Some(Header(vs, sep, t[i..]));
  }

  method Every(maxValues: nat) returns (vs: seq<nat>)
    ensures vs == FirstValues(maxValues)
  {
    vs := [];
    for v := 0 to maxValues
      invariant vs == FirstValues(v)
    {
      vs := vs + [v];
    }
  }

  /** A new set for the text, or nothing when the text is bad. */
  method FromText(names: seq<string>, words: nat, maxValues: nat, text: string) returns (c: Set, ok: bool)
    requires 0 < maxValues <= 32 * words
    ensures fresh(c) && |c.flat| == words
    ensures ok <==> Parsed(names, maxValues, 32 * words, text).Some?
    ensures ok ==> Parsed(names, maxValues, 32 * words, text) == Some(c.View())
  {
    c := new Set(words);
    assert |c.View()| == 32 * words;
    hide ViewOf, ReadClause;
    var ts := Tokens(text);
    assert ts[0..] == ts;
    for chunks := 0 to |ts|
      invariant |c.flat| == words && fresh(c)
      invariant ReadClauses(names, maxValues, Empty(32 * words), ts)
        == ReadClauses(names, maxValues, c.View(), ts[chunks..])
    {
      assert ts[chunks..][1..] == ts[chunks + 1..];
      ok := RunClause(c, names, maxValues, ts[chunks]);
      if !ok {
        return;
      }
    }
    ok := |ts| != 0;
  }
}
