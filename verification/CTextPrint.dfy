/** The C printer as it runs: clauses written one piece at a time into a fixed buffer. */
module CTextPrint {
  import opened Bits
  import opened Words
  import opened CapSet
  import opened Strings
  import opened TextModel
  import opened Printing
  import opened CTextCode

  const ZONE := 100

  // ---------- what the buffer holds ----------

  /** The clauses after the background; the first one sets when nothing is in the background. */
  function Later(m: nat, groups: seq<Clause>): seq<Clause> {
    if m == 0 && groups != [] then [groups[0].(op := '=')] + groups[1..] else groups
  }

  /** Everything written so far, the background always first. */
  function Raw(names: seq<string>, m: nat, groups: seq<Clause>, unnamed: seq<Clause>): seq<string> {
    Written(names, m, Later(m, groups) + unnamed)
  }

  function Written(names: seq<string>, m: nat, cls: seq<Clause>): seq<string> {
    ["=" + FlagText(PatOf(m))] + ClauseTexts(names, cls)
  }

  /** Where the result starts: a background that was merged away is skipped. */
  function Base(m: nat, groups: seq<Clause>): nat {
    if m == 0 && groups != [] then 2 else 0
  }

  lemma {:induction false} JoinSnoc(xs: seq<string>, y: string, sep: char)
    ensures Join(xs + [y], sep) == if xs == [] then y else Join(xs, sep) + [sep] + y
    decreases |xs|
  {
    if |xs| == 1 {
      assert (xs + [y])[1..] == [y];
      assert xs == [xs[0]];
    } else if |xs| > 1 {
      assert (xs + [y])[1..] == xs[1..] + [y];
      JoinSnoc(xs[1..], y, sep);
      var l := Join(xs[1..], sep);
      assert xs[0] + [sep] + (l + [sep] + y) == xs[0] + [sep] + l + [sep] + y;
    }
  }

  /** Joining more never gets shorter. */
  lemma {:induction false} JoinGrows(xs: seq<string>, ys: seq<string>, sep: char)
    ensures |Join(xs, sep)| <= |Join(xs + ys, sep)|
    decreases |ys|
  {
    if ys == [] {
      assert xs + ys == xs;
    } else {
      JoinSnoc(xs, ys[0], sep);
      JoinGrows(xs + [ys[0]], ys[1..], sep);
      assert xs + [ys[0]] + ys[1..] == xs + ys;
    }
  }

  /** The result is the buffer without the merged background. */
  lemma RawIsText(names: seq<string>, m: nat, groups: seq<Clause>, unnamed: seq<Clause>)
    requires m < 8
    ensures var raw := Join(Raw(names, m, groups, unnamed), ' ');
      && Base(m, groups) <= |raw|
      && raw[Base(m, groups)..] == Join(ClauseTexts(names, Opening(m, groups) + unnamed), ' ')
  {
    hide Join;
    var later := Later(m, groups) + unnamed;
    var raw := Raw(names, m, groups, unnamed);
    if m == 0 && groups != [] {
      assert Opening(m, groups) + unnamed == later;
      assert raw[1..] == ClauseTexts(names, later);
      RawTail(raw);
    } else {
      TextsOfOpening(names, m, groups);
      assert Opening(m, groups) == [Clause([], '=', PatOf(m), LOWERED)] + groups;
      assert Opening(m, groups) + unnamed == [Clause([], '=', PatOf(m), LOWERED)] + later;
      assert raw == ClauseTexts(names, Opening(m, groups) + unnamed);
    }
  }

  lemma RawTail(raw: seq<string>)
    requires |raw| > 1 && raw[0] == "="
    ensures 2 <= |Join(raw, ' ')| && Join(raw, ' ')[2..] == Join(raw[1..], ' ')
  {
    assert Join(raw, ' ') == "= " + Join(raw[1..], ' ');
  }

  lemma TextsOfOpening(names: seq<string>, m: nat, groups: seq<Clause>)
    ensures ClauseText(names, Clause([], '=', PatOf(m), LOWERED)) == "=" + FlagText(PatOf(m))
  {
    var cl := Clause([], '=', PatOf(m), LOWERED);
    assert NamesOf(names, []) == [];
    assert Join([], ',') == "";
    assert ActionText(cl) == ['='] + FlagText(PatOf(m)) + "";
  }

  lemma RawSnoc(names: seq<string>, m: nat, groups: seq<Clause>, cl: Clause)
    ensures Raw(names, m, groups + [cl], []) ==
      Raw(names, m, groups, []) + [ClauseText(names, if m == 0 && groups == [] then cl.(op := '=') else cl)]
  {
    var cl' := if m == 0 && groups == [] then cl.(op := '=') else cl;
    if groups != [] {
      assert (groups + [cl])[1..] == groups[1..] + [cl];
    }
    assert Later(m, groups + [cl]) == Later(m, groups) + [cl'];
    hide ClauseText;
  }

  lemma RawSnocUnnamed(names: seq<string>, m: nat, groups: seq<Clause>, unnamed: seq<Clause>, cl: Clause)
    ensures Raw(names, m, groups, unnamed + [cl]) == Raw(names, m, groups, unnamed) + [ClauseText(names, cl)]
  {
    assert Later(m, groups) + (unnamed + [cl]) == Later(m, groups) + unnamed + [cl];
    hide ClauseText, Later;
  }

  // ---------- writing ----------

  /** Write text and a terminator at p; the new end is before the terminator. */
  method Sprintf(buf: array<char>, p: nat, text: string) returns (p': nat)
    requires p + |text| < buf.Length
    modifies buf
    ensures p' == p + |text| && buf[..p'] == old(buf[..p]) + text
  {
    for k := 0 to |text|
      invariant buf[..p] == old(buf[..p])
      invariant buf[p..p + k] == text[..k]
    {
      buf[p + k] := text[k];
      assert text[..k + 1] == text[..k] + [text[k]];
      assert buf[p..p + (k + 1)] == buf[p..p + k] + [text[k]];
    }
    p' := p + |text|;
    buf[p'] := '\0';
    assert text[..|text|] == text;
    assert buf[..p'] == buf[..p] + buf[p..p'];
  }

  /** Names with a comma after each. */
  function Commas(ss: seq<string>): string {
    if ss == [] then "" else Join(ss, ',') + ","
  }

  /** One name and its comma, unless the name would end past the limit. */
  method WriteName(buf: array<char>, start: nat, name: string, limit: nat, ghost was: string, ghost done: seq<string>)
    returns (ok: bool, p: nat)
    requires start == |was + Commas(done)| <= limit + 1 && buf.Length == limit + ZONE
    requires buf[..start] == was + Commas(done)
    modifies buf
    ensures ok <==> |was| + |Join(done + [name], ',')| <= limit
    ensures ok ==> p == |was| + |Commas(done + [name])| <= limit + 1
    ensures ok ==> buf[..p] == was + Commas(done + [name])
  {
    CommasSnoc(was, done, name);
    assert buf.Length == limit + 100;
    hide *;
    if |name| + start > limit {
      return false, start;
    }
    p := Sprintf(buf, start, name + ",");
    ok := true;
  }

  /** Write the names of the values that have one combination, each with a comma, unless a name
      would end past the limit. */
  method WriteNames(buf: array<char>, start: nat, u: Flat, names: seq<string>, t: nat, lo: nat, hi: nat, limit: nat,
                    ghost was: string) returns (ok: bool, p: nat)
    requires start <= buf.Length && was == buf[..start]
    requires lo <= hi <= 32 * |u| && t < 8 && start <= limit + 1 && buf.Length == limit + ZONE
    requires Members(ViewOf(u), PatOf(t), lo, hi) != []
    modifies buf
    ensures ok <==> start + |ListText(names, ViewOf(u), t, lo, hi)| <= limit
    ensures ok ==> p <= limit + 1 && buf[..p] == was + ListText(names, ViewOf(u), t, lo, hi) + ","
  {
    ghost var caps := ViewOf(u);
    p := start;
    assert |caps| == 32 * |u|;
    CommasNone(was, names, caps, t, lo);
    hide *;
    for n := lo to hi
      invariant p <= limit + 1 && Wrote(buf[..p], was, names, caps, t, lo, n)
    {
      ok, p := WriteNext(buf, p, u, names, t, n, limit, was, lo);
      if !ok {
        MembersGrow(names, caps, t, lo, n + 1, hi);
        return;
      }
    }
    WroteAll(buf[..p], was, names, caps, t, lo, hi);
    ok := true;
  }

  /** The next value, when it has the combination. */
  method WriteNext(buf: array<char>, start: nat, u: Flat, names: seq<string>, t: nat, n: nat, limit: nat,
                   ghost was: string, ghost lo: nat) returns (ok: bool, p: nat)
    requires lo <= n < 32 * |u| && t < 8 && start <= limit + 1 && buf.Length == limit + ZONE
    requires Wrote(buf[..start], was, names, ViewOf(u), t, lo, n)
    modifies buf
    ensures !ok ==> |was| + |ListText(names, ViewOf(u), t, lo, n + 1)| > limit
    ensures ok ==> p <= limit + 1 && Wrote(buf[..p], was, names, ViewOf(u), t, lo, n + 1)
  {
    ghost var caps := ViewOf(u);
    ListedNext(names, caps, t, lo, n);
    hide Listed, ViewOf, CodeOf, Commas, PatternOf, NameOf, Join;
    p := start;
    ok := true;
    if PatternOf(u, n) == t {
      ok, p := WriteName(buf, p, NameOf(names, n), limit, was, Listed(names, caps, t, lo, n));
    }
  }

  /** What the buffer holds when the values below n are written. */
  ghost predicate Wrote(text: string, was: string, names: seq<string>, caps: Caps, t: nat, lo: nat, n: nat)
    requires lo <= n <= |caps|
  {
    text == was + Commas(Listed(names, caps, t, lo, n))
  }

  ghost function Listed(names: seq<string>, caps: Caps, t: nat, lo: nat, n: nat): seq<string>
    requires lo <= n <= |caps|
  {
    NamesOf(names, Members(caps, PatOf(t), lo, n))
  }

  /** The names of the values of a range that have one combination. */
  ghost function ListText(names: seq<string>, caps: Caps, t: nat, lo: nat, n: nat): string
    requires lo <= n <= |caps|
  {
    Join(Listed(names, caps, t, lo, n), ',')
  }

  lemma ListedNext(names: seq<string>, caps: Caps, t: nat, lo: nat, n: nat)
    requires lo <= n < |caps| && t < 8
    ensures Listed(names, caps, t, lo, n + 1) ==
      Listed(names, caps, t, lo, n) + if CodeOf(caps[n]) == t then [NameOf(names, n)] else []
    ensures CodeOf(caps[n]) != t ==> Listed(names, caps, t, lo, n + 1) == Listed(names, caps, t, lo, n)
    ensures ListText(names, caps, t, lo, n + 1) == Join(Listed(names, caps, t, lo, n + 1), ',')
  {
    ListNext(names, caps, t, lo, n);
    hide Members, NamesOf, CodeOf, PatOf, NameOf, Join;
  }

  lemma WroteAll(text: string, was: string, names: seq<string>, caps: Caps, t: nat, lo: nat, n: nat)
    requires lo <= n <= |caps| && Members(caps, PatOf(t), lo, n) != []
    requires Wrote(text, was, names, caps, t, lo, n)
    ensures text == was + ListText(names, caps, t, lo, n) + ","
    ensures |text| == |was| + |ListText(names, caps, t, lo, n)| + 1
  {
    hide Join;
    assert Listed(names, caps, t, lo, n) != [];
  }

  lemma CommasNone(was: string, names: seq<string>, caps: Caps, t: nat, lo: nat)
    requires lo <= |caps|
    ensures Wrote(was, was, names, caps, t, lo, lo)
  {
    ListNone(names, caps, t, lo);
  }

  lemma CommasSnoc(was: string, ss: seq<string>, name: string)
    ensures was + Commas(ss) + (name + ",") == was + Commas(ss + [name])
    ensures |Join(ss + [name], ',')| == |Commas(ss)| + |name|
    ensures |Commas(ss + [name])| == |Commas(ss)| + |name| + 1
  {
    JoinSnoc(ss, name, ',');
    hide Join;
    assert Commas(ss) + (name + ",") == Commas(ss + [name]);
  }

  lemma {:induction false} MembersGrow(names: seq<string>, caps: Caps, t: nat, lo: nat, n: nat, hi: nat)
    requires lo <= n <= hi <= |caps| && t < 8
    ensures |ListText(names, caps, t, lo, n)| <= |ListText(names, caps, t, lo, hi)|
    decreases hi - n
  {
    if n < hi {
      MembersGrow(names, caps, t, lo, n + 1, hi);
      ListedNext(names, caps, t, lo, n);
      JoinGrows(Listed(names, caps, t, lo, n), if CodeOf(caps[n]) == t then [NameOf(names, n)] else [], ',');
      hide Listed, Join, CodeOf;
    }
  }

  // ---------- one clause ----------

  /** The result so far opens with a bare "=" exactly while nothing has been added to an empty
      background. */
  lemma BareOpening(names: seq<string>, m: nat, groups: seq<Clause>, list: string)
    requires TableOk(names) && m < 8 && GroupShape(groups)
    ensures var text, base := Join(Raw(names, m, groups, []), ' ') + " " + list, Base(m, groups);
      && base + 1 < |text|
      && (text[base] == '=' && text[base + 1] == ' ' <==> m == 0 && groups == [])
  {
    var raw := Raw(names, m, groups, []);
    var text := Join(raw, ' ') + " " + list;
    CodeOfPat(m);
    CodeOfPat(0);
    FlagTextChars(PatOf(m));
    if groups == [] || m != 0 {
      RawStarts(raw);
      hide Raw, Join, PatOf;
      assert groups == [] ==> Join(raw, ' ') == raw[0];
      assert FlagText(PatOf(m)) == "" <==> m == 0;
    } else {
      var first := raw[1];
      FirstIsName(names, groups[0].(op := '='));
      assert first == ClauseText(names, groups[0].(op := '='));
      RawStarts(raw[1..]);
      RawTail(raw);
      hide Raw, Join, PatOf;
    }
  }

  lemma RawStarts(raw: seq<string>)
    requires raw != []
    ensures raw[0] <= Join(raw, ' ') && (|raw| == 1 ==> Join(raw, ' ') == raw[0])
  {
  }

  lemma FirstIsName(names: seq<string>, cl: Clause)
    requires TableOk(names) && cl.vals != []
    ensures ClauseText(names, cl) != "" && !IsOp(ClauseText(names, cl)[0])
  {
    NamesPlain(names, cl.vals);
    JoinPlain(NamesOf(names, cl.vals));
    hide NamesOf, Join;
  }

  /** What the code writes after the names of a group. */
  function Suffix(op: char, up: nat, down: nat): string {
    (if up != 0 then [op] + FlagText(PatOf(up)) else "") + (if down != 0 then "-" + FlagText(PatOf(down)) else "")
  }

  lemma SuffixIsAction(cl: Clause, t: nat, m: nat, op: char)
    requires t < 8 && m < 8 && cl.up == Minus(PatOf(t), PatOf(m)) && cl.down == Minus(PatOf(m), PatOf(t))
    requires op == '+' || (op == '=' && m == 0 && t != 0)
    ensures ActionText(cl.(op := op)) == Suffix(op, AndNot(t, m), AndNot(m, t))
  {
    Leftover(t, m);
    hide FlagText, PatOf, Minus, AndNot;
  }

  /** One clause for named values. */
  method NamedGroup(buf: array<char>, start: nat, base0: nat, u: Flat, names: seq<string>, maxBits: nat, t: nat, m: nat,
                    limit: nat, ghost groups: seq<Clause>, ghost cl: Clause) returns (ok: bool, p: nat, base: nat)
    requires TableOk(names) && t < 8 && m < 8 && t != m && maxBits <= 32 * |u|
    requires start <= limit && buf.Length == limit + ZONE
    requires GroupShape(groups) && cl == GroupOf(ViewOf(u), maxBits, m, t) && cl.vals != []
    requires buf[..start] == Join(Raw(names, m, groups, []), ' ') && base0 == Base(m, groups)
    modifies buf
    ensures ok <==> |Join(Raw(names, m, groups + [cl], []), ' ')| <= limit
    ensures ok ==> p <= limit && buf[..p] == Join(Raw(names, m, groups + [cl], []), ' ') && base == Base(m, groups + [cl])
  {
    ghost var was := buf[..start];
    ghost var list := ListText(names, ViewOf(u), t, 0, maxBits);
    GroupWritten(names, m, groups, cl, if m == 0 && groups == [] then '=' else '+', list, t);
    BaseNext(m, groups, cl, t);
    assert Members(ViewOf(u), PatOf(t), 0, maxBits) != [];
    hide *;
    ok, p := BlankAndNames(buf, start, u, names, t, 0, maxBits, limit, was);
    if !ok {
      return false, p, base0;
    }
    var op;
    op, base := Choose(buf, p, base0, names, m, groups, list, AndNot(t, m));
    p := WriteSuffix(buf, p, op, AndNot(t, m), AndNot(m, t), was + " " + list, limit);
    ok := p <= limit;
  }

  /** A blank and the names, without the last comma. */
  method BlankAndNames(buf: array<char>, start: nat, u: Flat, names: seq<string>, t: nat, lo: nat, hi: nat, limit: nat,
                       ghost was: string) returns (ok: bool, p: nat)
    requires lo <= hi <= 32 * |u| && t < 8 && start <= limit && buf.Length == limit + ZONE
    requires Members(ViewOf(u), PatOf(t), lo, hi) != [] && was == buf[..start]
    modifies buf
    ensures ok <==> |was + " " + ListText(names, ViewOf(u), t, lo, hi)| <= limit
    ensures ok ==> p <= limit && buf[..p] == was + " " + ListText(names, ViewOf(u), t, lo, hi)
  {
    assert buf.Length == limit + 100;
    hide *;
    buf[start] := ' ';
    assert buf[..start + 1] == was + " ";
    ok, p := WriteNames(buf, start + 1, u, names, t, lo, hi, limit, was + " ");
    if ok {
      p := p - 1;
      assert buf[..p] == buf[..p + 1][..p];
    }
  }

  /** The operator, and the start of the result when the background is merged away. */
  method Choose(buf: array<char>, p: nat, base0: nat, names: seq<string>, ghost m: nat, ghost groups: seq<Clause>,
                ghost list: string, up: nat) returns (op: char, base: nat)
    requires TableOk(names) && m < 8 && GroupShape(groups) && p <= buf.Length
    requires buf[..p] == Join(Raw(names, m, groups, []), ' ') + " " + list && base0 == Base(m, groups)
    requires m == 0 && groups == [] ==> up != 0
    ensures if m == 0 && groups == [] then op == '=' && base == base0 + 2 else op == '+' && base == base0
  {
    BareOpening(names, m, groups, list);
    hide *;
    op, base := '+', base0;
    if up != 0 {
      assert buf[base] == buf[..p][base] && buf[base + 1] == buf[..p][base + 1];
      if buf[base] == '=' && buf[base + 1] == ' ' {
        base := base + 2;
        op := '=';
      }
    }
  }

  method WriteSuffix(buf: array<char>, start: nat, op: char, up: nat, down: nat, ghost was: string, ghost limit: nat)
    returns (p: nat)
    requires start <= limit && buf.Length == limit + ZONE && buf[..start] == was
    modifies buf
    ensures p < buf.Length && buf[..p] == was + Suffix(op, up, down)
  {
    p := start;
    FlagTextLength(PatOf(up));
    FlagTextLength(PatOf(down));
    hide FlagText, PatOf;
    if up != 0 {
      p := Sprintf(buf, p, [op] + FlagText(PatOf(up)));
    }
    if down != 0 {
      p := Sprintf(buf, p, "-" + FlagText(PatOf(down)));
    }
  }

  lemma FlagTextLength(p: Pat)
    ensures |FlagText(p)| <= 3
  {
  }

  /** The new clause joins what was written before it. */
  lemma GroupWritten(names: seq<string>, m: nat, groups: seq<Clause>, cl: Clause, op: char, list: string, t: nat)
    requires t < 8 && m < 8 && t != m && op == if m == 0 && groups == [] then '=' else '+'
    requires cl.op == '+' && cl.up == Minus(PatOf(t), PatOf(m)) && cl.down == Minus(PatOf(m), PatOf(t))
    requires list == Join(NamesOf(names, cl.vals), ',')
    ensures Join(Raw(names, m, groups + [cl], []), ' ')
      == Join(Raw(names, m, groups, []), ' ') + " " + list + Suffix(op, AndNot(t, m), AndNot(m, t))
  {
    RawSnoc(names, m, groups, cl);
    SuffixIsAction(cl, t, m, op);
    assert cl.op == op ==> cl.(op := op) == cl;
    hide Join, NamesOf, Suffix, ActionText;
    AppendText(Raw(names, m, groups, []), list, Suffix(op, AndNot(t, m), AndNot(m, t)));
    hide Raw;
  }

  lemma AppendText(raw: seq<string>, list: string, suffix: string)
    requires raw != []
    ensures Join(raw + [list + suffix], ' ') == Join(raw, ' ') + " " + list + suffix
  {
    JoinSnoc(raw, list + suffix, ' ');
    hide Join;
    assert Join(raw, ' ') + " " + (list + suffix) == Join(raw, ' ') + " " + list + suffix;
  }

  lemma BaseNext(m: nat, groups: seq<Clause>, cl: Clause, t: nat)
    requires t < 8 && m < 8 && t != m
    ensures Base(m, groups + [cl]) == if m == 0 && groups == [] then 2 else Base(m, groups)
    ensures m == 0 && groups == [] ==> AndNot(t, m) != 0 && Base(m, groups) == 0
  {
    Leftover(t, m);
  }

  lemma UnnamedWritten(names: seq<string>, m: nat, groups: seq<Clause>, unnamed: seq<Clause>, cl: Clause, list: string, t: nat)
    requires 1 <= t < 8 && cl.op == '+' && cl.up == PatOf(t) && cl.down == LOWERED
    requires list == Join(NamesOf(names, cl.vals), ',')
    ensures Join(Raw(names, m, groups, unnamed + [cl]), ' ')
      == Join(Raw(names, m, groups, unnamed), ' ') + " " + list + Suffix('+', t, 0)
  {
    RawSnocUnnamed(names, m, groups, unnamed, cl);
    CodeOfPat(t);
    CodeOfPat(0);
    AppendText(Raw(names, m, groups, unnamed), list, Suffix('+', t, 0));
    hide Join, Raw, NamesOf, FlagText, PatOf;
    assert ClauseText(names, cl) == list + Suffix('+', t, 0);
  }

  /** One clause for unnamed values. */
  method UnnamedGroup(buf: array<char>, start: nat, u: Flat, names: seq<string>, maxBits: nat, t: nat, limit: nat,
                      ghost m: nat, ghost groups: seq<Clause>, ghost unnamed: seq<Clause>, ghost cl: Clause)
    returns (ok: bool, p: nat)
    requires 1 <= t < 8 && maxBits <= 32 * |u|
    requires start <= limit && buf.Length == limit + ZONE
    requires cl == UnnamedGroupOf(ViewOf(u), maxBits, t) && cl.vals != []
    requires buf[..start] == Join(Raw(names, m, groups, unnamed), ' ')
    modifies buf
    ensures ok <==> |Join(Raw(names, m, groups, unnamed + [cl]), ' ')| <= limit
    ensures ok ==> p <= limit && buf[..p] == Join(Raw(names, m, groups, unnamed + [cl]), ' ')
  {
    ghost var was := buf[..start];
    ghost var list := ListText(names, ViewOf(u), t, maxBits, 32 * |u|);
    UnnamedWritten(names, m, groups, unnamed, cl, list, t);
    assert Members(ViewOf(u), PatOf(t), maxBits, 32 * |u|) != [];
    hide *;
    ok, p := BlankAndNames(buf, start, u, names, t, maxBits, 32 * |u|, limit, was);
    if !ok {
      return;
    }
    p := WriteSuffix(buf, p, '+', t, 0, was + " " + list, limit);
    ok := p <= limit;
  }

  // ---------- the whole text ----------

  /** Every further clause makes the text in the buffer longer. */
  lemma RawMoreNamed(names: seq<string>, m: nat, gs: seq<Clause>, more: seq<Clause>, us: seq<Clause>)
    requires gs != []
    ensures |Join(Raw(names, m, gs, []), ' ')| <= |Join(Raw(names, m, gs + more, us), ' ')|
  {
    LaterMore(m, gs, more, us);
    hide Join, Written, Later;
    RawMore(names, m, Later(m, gs) + [], more + us);
  }

  lemma LaterMore(m: nat, gs: seq<Clause>, more: seq<Clause>, us: seq<Clause>)
    requires gs != []
    ensures Later(m, gs + more) + us == Later(m, gs) + [] + (more + us)
  {
    assert (gs + more)[1..] == gs[1..] + more;
  }

  lemma RawMoreUnnamed(names: seq<string>, m: nat, gs: seq<Clause>, us: seq<Clause>, more: seq<Clause>)
    ensures |Join(Raw(names, m, gs, us), ' ')| <= |Join(Raw(names, m, gs, us + more), ' ')|
  {
    assert Later(m, gs) + (us + more) == Later(m, gs) + us + more;
    hide Join, Written, Later;
    RawMore(names, m, Later(m, gs) + us, more);
  }

  lemma RawMore(names: seq<string>, m: nat, xs: seq<Clause>, ys: seq<Clause>)
    ensures |Join(Written(names, m, xs), ' ')| <= |Join(Written(names, m, xs + ys), ' ')|
  {
    TextsConcat(names, xs, ys);
    JoinGrows(Written(names, m, xs), ClauseTexts(names, ys), ' ');
    hide Join, ClauseTexts, FlagText, PatOf;
    assert Written(names, m, xs) + ClauseTexts(names, ys) == Written(names, m, xs + ys);
  }

  /** Room that the text of a set takes in the buffer. */
  function RawLength(names: seq<string>, caps: Caps, named: nat): nat
    requires named <= |caps|
  {
    var m := Background(caps, named);
    |TextOf(names, caps, named)| + Base(m, NamedGroups(caps, named, m, 8))
  }

  lemma RawLengthIs(names: seq<string>, caps: Caps, named: nat)
    requires named <= |caps|
    ensures
      var m := Background(caps, named);
      var raw := Join(Raw(names, m, NamedGroups(caps, named, m, 8), UnnamedGroups(caps, named, 8)), ' ');
      && |raw| == RawLength(names, caps, named)
      && raw[Base(m, NamedGroups(caps, named, m, 8))..] == TextOf(names, caps, named)
  {
    var m := Background(caps, named);
    BackgroundIsLeastBest(caps, named);
    RawIsText(names, m, NamedGroups(caps, named, m, 8), UnnamedGroups(caps, named, 8));
    hide Background, NamedGroups, UnnamedGroups, Raw, Base, Opening, ClauseTexts, Join;
  }

  /** The histogram of a range, and the scan for its most frequent combination. */
  method Histogram(histo: array<nat>, u: Flat, lo: nat, hi: nat)
    requires lo <= hi <= 32 * |u| && histo[..] == Zeros(8)
    modifies histo
    ensures histo[..] == Tallied(ViewOf(u), lo, hi)
  {
    TalliedNone(ViewOf(u), lo);
    assert |ViewOf(u)| == 32 * |u|;
    hide *;
    var n := lo;
    while n < hi
      invariant lo <= n <= hi && histo[..] == Tallied(ViewOf(u), lo, n)
    {
      CountOne(histo, u, lo, n);
      n := n + 1;
    }
  }

  method CountOne(histo: array<nat>, u: Flat, ghost lo: nat, n: nat)
    requires lo <= n < 32 * |u| && histo[..] == Tallied(ViewOf(u), lo, n)
    modifies histo
    ensures histo[..] == Tallied(ViewOf(u), lo, n + 1)
  {
    TalliedNext(ViewOf(u), lo, n);
    hide *;
    Bump(histo, PatternOf(u, n), Tallied(ViewOf(u), lo, n));
  }

  method MostFrequent(histo: array<nat>, ghost caps: Caps, ghost named: nat) returns (m: nat)
    requires named <= |caps| && histo[..] == Tallied(caps, 0, named)
    ensures m == Background(caps, named) && m < 8
  {
    hide Count;
    assert forall k :: 0 <= k < 8 ==> histo[..][k] == Count(caps, k, 0, named);
    m := 7;
    var t := 7;
    while t > 0
      invariant 0 <= t <= m <= 7
      invariant Scan(caps, 0, named, 7, 7) == Scan(caps, 0, named, t, m)
    {
      t := t - 1;
      if histo[t] >= histo[m] {
        m := t;
      }
    }
  }

  /** The buffer after the named clauses so far, and where the result starts in it. */
  ghost predicate Holds(text: string, base: nat, names: seq<string>, m: nat, groups: seq<Clause>) {
    GroupShape(groups) && text == Join(Raw(names, m, groups, []), ' ') && base == Base(m, groups)
  }

  /** No room for the named clauses, whatever follows them. */
  ghost predicate TooLong(names: seq<string>, m: nat, all: seq<Clause>, limit: nat) {
    forall us :: |Join(Raw(names, m, all, us), ' ')| > limit
  }

  /** The clauses for the named values. */
  method NamedTexts(buf: array<char>, start: nat, u: Flat, names: seq<string>, maxBits: nat, m: nat, limit: nat,
                    histo: seq<nat>) returns (ok: bool, p: nat, base: nat)
    requires TableOk(names) && m < 8 && maxBits <= 32 * |u| && start <= limit && buf.Length == limit + ZONE
    requires histo == Tallied(ViewOf(u), 0, maxBits)
    requires Holds(buf[..start], 0, names, m, [])
    modifies buf
    ensures !ok ==> TooLong(names, m, NamedGroups(ViewOf(u), maxBits, m, 8), limit)
    ensures ok ==> p <= limit && Holds(buf[..p], base, names, m, NamedGroups(ViewOf(u), maxBits, m, 8))
  {
    ghost var caps := ViewOf(u);
    ghost var all := NamedGroups(caps, maxBits, m, 8);
    ghost var groups: seq<Clause> := [];
    assert NamedGroups(caps, maxBits, m, 0) == [];
    p, base := start, 0;
    var t := 8;
    assert buf.Length == limit + 100 && |caps| == 32 * |u|;
    hide *;
    while t > 0
      invariant 0 <= t <= 8 && p <= limit
      invariant all == groups + NamedGroups(caps, maxBits, m, t)
      invariant Holds(buf[..p], base, names, m, groups)
    {
      t := t - 1;
      ok, p, base, groups := NamedTurn(buf, p, base, u, names, maxBits, t, m, limit, histo, groups);
      if !ok {
        return;
      }
    }
    assert groups + [] == groups;
    ok := true;
  }

  /** One combination: nothing for the background and for those that no value has. */
  method NamedTurn(buf: array<char>, start: nat, base0: nat, u: Flat, names: seq<string>, maxBits: nat, t: nat, m: nat,
                   limit: nat, histo: seq<nat>, ghost groups: seq<Clause>)
    returns (ok: bool, p: nat, base: nat, ghost groups': seq<Clause>)
    requires TableOk(names) && t < 8 && m < 8 && maxBits <= 32 * |u| && start <= limit && buf.Length == limit + ZONE
    requires histo == Tallied(ViewOf(u), 0, maxBits)
    requires Holds(buf[..start], base0, names, m, groups)
    modifies buf
    ensures groups + NamedGroups(ViewOf(u), maxBits, m, t + 1) == groups' + NamedGroups(ViewOf(u), maxBits, m, t)
    ensures !ok ==> TooLong(names, m, groups + NamedGroups(ViewOf(u), maxBits, m, t + 1), limit)
    ensures ok ==> p <= limit && Holds(buf[..p], base, names, m, groups')
  {
    ghost var caps := ViewOf(u);
    ghost var cl := GroupOf(caps, maxBits, m, t);
    ghost var rest := NamedGroups(caps, maxBits, m, t);
    NamedStep(caps, maxBits, m);
    groups' := groups;
    if t == m || histo[t] == 0 {
      return true, start, base0, groups;
    }
    assert NamedGroups(caps, maxBits, m, t + 1) == [cl] + rest && cl.vals != [];
    hide *;
    assert groups + ([cl] + rest) == groups + [cl] + rest;
    groups' := groups + [cl];
    ok, p, base := NamedStepText(buf, start, base0, u, names, maxBits, t, m, limit, groups, cl);
    if !ok {
      AlreadyTooLong(names, m, groups', rest, limit);
    }
  }

  lemma AlreadyTooLong(names: seq<string>, m: nat, groups: seq<Clause>, rest: seq<Clause>, limit: nat)
    requires groups != [] && |Join(Raw(names, m, groups, []), ' ')| > limit
    ensures TooLong(names, m, groups + rest, limit)
  {
    forall us
      ensures |Join(Raw(names, m, groups + rest, us), ' ')| > limit
    {
      RawMoreNamed(names, m, groups, rest, us);
    }
  }

  method NamedStepText(buf: array<char>, start: nat, base0: nat, u: Flat, names: seq<string>, maxBits: nat, t: nat, m: nat,
                       limit: nat, ghost groups: seq<Clause>, ghost cl: Clause) returns (ok: bool, p: nat, base: nat)
    requires TableOk(names) && t < 8 && m < 8 && t != m && maxBits <= 32 * |u|
    requires start <= limit && buf.Length == limit + ZONE
    requires cl == GroupOf(ViewOf(u), maxBits, m, t) && cl.vals != []
    requires Holds(buf[..start], base0, names, m, groups)
    modifies buf
    ensures !ok ==> |Join(Raw(names, m, groups + [cl], []), ' ')| > limit
    ensures ok ==> p <= limit && Holds(buf[..p], base, names, m, groups + [cl])
  {
    hide TableOk, Raw, Join, ViewOf, Base;
    ok, p, base := NamedGroup(buf, start, base0, u, names, maxBits, t, m, limit, groups, cl);
  }

  /** The clauses for the unnamed values. */
  method UnnamedTexts(buf: array<char>, start: nat, u: Flat, names: seq<string>, maxBits: nat, limit: nat, histo: seq<nat>,
                      ghost m: nat, ghost groups: seq<Clause>) returns (ok: bool, p: nat)
    requires maxBits <= 32 * |u| && start <= limit && buf.Length == limit + ZONE
    requires histo == Tallied(ViewOf(u), maxBits, 32 * |u|)
    requires buf[..start] == Join(Raw(names, m, groups, []), ' ')
    modifies buf
    ensures !ok ==> |Join(Raw(names, m, groups, UnnamedGroups(ViewOf(u), maxBits, 8)), ' ')| > limit
    ensures ok ==> p <= limit && buf[..p] == Join(Raw(names, m, groups, UnnamedGroups(ViewOf(u), maxBits, 8)), ' ')
  {
    ghost var caps := ViewOf(u);
    ghost var all := UnnamedGroups(caps, maxBits, 8);
    ghost var us: seq<Clause> := [];
    assert UnnamedGroups(caps, maxBits, 1) == [];
    p := start;
    var t := 8;
    assert buf.Length == limit + 100 && |caps| == 32 * |u|;
    hide *;
    while t > 1
      invariant 1 <= t <= 8 && p <= limit
      invariant all == us + UnnamedGroups(caps, maxBits, t)
      invariant buf[..p] == Join(Raw(names, m, groups, us), ' ')
    {
      t := t - 1;
      ok, p, us := UnnamedTurn(buf, p, u, names, maxBits, t, limit, histo, m, groups, us);
      if !ok {
        return;
      }
    }
    assert us + [] == us;
    ok := true;
  }

  method UnnamedTurn(buf: array<char>, start: nat, u: Flat, names: seq<string>, maxBits: nat, t: nat, limit: nat,
                     histo: seq<nat>, ghost m: nat, ghost groups: seq<Clause>, ghost us: seq<Clause>)
    returns (ok: bool, p: nat, ghost us': seq<Clause>)
    requires 1 <= t < 8 && maxBits <= 32 * |u| && start <= limit && buf.Length == limit + ZONE
    requires histo == Tallied(ViewOf(u), maxBits, 32 * |u|)
    requires buf[..start] == Join(Raw(names, m, groups, us), ' ')
    modifies buf
    ensures us + UnnamedGroups(ViewOf(u), maxBits, t + 1) == us' + UnnamedGroups(ViewOf(u), maxBits, t)
    ensures !ok ==> |Join(Raw(names, m, groups, us + UnnamedGroups(ViewOf(u), maxBits, t + 1)), ' ')| > limit
    ensures ok ==> p <= limit && buf[..p] == Join(Raw(names, m, groups, us'), ' ')
  {
    ghost var caps := ViewOf(u);
    ghost var cl := UnnamedGroupOf(caps, maxBits, t);
    ghost var rest := UnnamedGroups(caps, maxBits, t);
    UnnamedStep(caps, maxBits);
    if histo[t] == 0 {
      return true, start, us;
    }
    assert UnnamedGroups(caps, maxBits, t + 1) == [cl] + rest && cl.vals != [];
    hide *;
    assert us + ([cl] + rest) == us + [cl] + rest;
    us' := us + [cl];
    ok, p := UnnamedGroup(buf, start, u, names, maxBits, t, limit, m, groups, us, cl);
    if !ok {
      RawMoreUnnamed(names, m, groups, us', rest);
    }
  }

  /** The canonical text of a set, or nothing when it does not fit. */
  method ToText(c: CapT, names: seq<string>, maxBits: nat, limit: nat) returns (r: Option<string>)
    requires TableOk(names) && maxBits <= 32 * |c.u| && 4 <= limit
    ensures r == if RawLength(names, c.View(), maxBits) > limit then None else Some(TextOf(names, c.View(), maxBits))
  {
    ghost var caps := ViewOf(c.u);
    RawLengthIs(names, caps, maxBits);
    var buf := new char[limit + ZONE];
    hide *;
    var histo := Blank(8);
    Histogram(histo, c.u, 0, maxBits);
    var m := MostFrequent(histo, caps, maxBits);
    var ok, p, base := NamedPart(buf, c.u, names, maxBits, m, limit, histo[..]);
    if !ok {
      TooLongFor(names, m, NamedGroups(caps, maxBits, m, 8), limit, UnnamedGroups(caps, maxBits, 8));
      return None;
    }
    histo := Blank(8);
    Histogram(histo, c.u, maxBits, 32 * |c.u|);
    ok, p := UnnamedTexts(buf, p, c.u, names, maxBits, limit, histo[..], m, NamedGroups(caps, maxBits, m, 8));
    if !ok {
      return None;
    }
    assert base <= p && buf[base..p] == buf[..p][base..];
    return Some(buf[base..p]);
  }

  /** The background and the clauses for the named values. */
  method NamedPart(buf: array<char>, u: Flat, names: seq<string>, maxBits: nat, m: nat, limit: nat, histo: seq<nat>)
    returns (ok: bool, p: nat, base: nat)
    requires TableOk(names) && m < 8 && maxBits <= 32 * |u| && 4 <= limit && buf.Length == limit + ZONE
    requires histo == Tallied(ViewOf(u), 0, maxBits)
    modifies buf
    ensures var groups := NamedGroups(ViewOf(u), maxBits, m, 8);
      && (!ok ==> TooLong(names, m, groups, limit))
      && (ok ==> p <= limit && buf[..p] == Join(Raw(names, m, groups, []), ' ') && base == Base(m, groups))
  {
    assert ZONE == 100;
    FlagTextLength(PatOf(m));
    StartsEmpty(names, m);
    hide *;
    p := Sprintf(buf, 0, "=" + FlagText(PatOf(m)));
    ok, p, base := NamedTexts(buf, p, u, names, maxBits, m, limit, histo);
    if ok {
      HeldText(buf[..p], base, names, m, NamedGroups(ViewOf(u), maxBits, m, 8));
    }
  }

  lemma StartsEmpty(names: seq<string>, m: nat)
    ensures Holds("" + ("=" + FlagText(PatOf(m))), 0, names, m, [])
  {
    assert Raw(names, m, [], []) == ["=" + FlagText(PatOf(m))];
  }

  lemma TooLongFor(names: seq<string>, m: nat, groups: seq<Clause>, limit: nat, us: seq<Clause>)
    requires TooLong(names, m, groups, limit)
    ensures |Join(Raw(names, m, groups, us), ' ')| > limit
  {
  }

  lemma HeldText(text: string, base: nat, names: seq<string>, m: nat, groups: seq<Clause>)
    requires Holds(text, base, names, m, groups)
    ensures text == Join(Raw(names, m, groups, []), ' ') && base == Base(m, groups)
  {
  }
}
