/** The text form of a capability set: what the printers of both languages write, as a list
    of clauses, and what a list of clauses means. */
module TextModel {
  import opened CapSet
  import opened Strings

  // ---------- names ----------

  predicate IsNameChar(c: char) {
    'a' <= c <= 'z' || c == '_'
  }

  /** Names are lower-case words other than "all"; no numeral or separator is one. */
  predicate NameOk(s: string) {
    s != "" && s != "all" && forall i :: 0 <= i < |s| ==> IsNameChar(s[i])
  }

  predicate TableOk(names: seq<string>) {
    && (forall v :: 0 <= v < |names| ==> NameOk(names[v]))
    && (forall v, u :: 0 <= v < u < |names| ==> names[v] != names[u])
  }

  function Find(names: seq<string>, s: string): (r: Option<nat>)
    ensures r.Some? ==> r.value < |names| && names[r.value] == s
    ensures r.None? ==> s !in names
  {
    if names == [] then None
    else if names[0] == s then Some(0)
    else match Find(names[1..], s) case None => None case Some(v) => Some(v + 1)
  }

  lemma {:induction false} FindName(names: seq<string>, v: nat)
    requires TableOk(names) && v < |names|
    ensures Find(names, names[v]) == Some(v)
    decreases v
  {
    if v > 0 {
      assert names[0] != names[v];
      assert TableOk(names[1..]) by {
        forall a, b | 0 <= a < b < |names| - 1
          ensures names[1..][a] != names[1..][b]
        {
          assert names[a + 1] != names[b + 1];
        }
      }
      FindName(names[1..], v - 1);
    }
  }

  /** Values without a name are written in decimal. */
  function NameOf(names: seq<string>, v: nat): string {
    if v < |names| then names[v] else Decimal(v)
  }

  function NamesOf(names: seq<string>, vals: seq<nat>): (ss: seq<string>)
    ensures |ss| == |vals|
    ensures forall i :: 0 <= i < |vals| ==> ss[i] == NameOf(names, vals[i])
  {
    seq(|vals|, i requires 0 <= i < |vals| => NameOf(names, vals[i]))
  }

  // ---------- flag combinations ----------

  function CodeOf(p: Pat): (c: nat)
    ensures c < 8 && PatOf(c) == p
  {
    (if p.e then 1 else 0) + (if p.p then 2 else 0) + (if p.i then 4 else 0)
  }

  function PatOf(code: nat): Pat {
    Pat(code % 2 == 1, code / 2 % 2 == 1, code / 4 % 2 == 1)
  }

  lemma CodeOfPat(code: nat)
    requires code < 8
    ensures CodeOf(PatOf(code)) == code
  {
  }

  function Plus(p: Pat, q: Pat): Pat {
    Pat(p.e || q.e, p.p || q.p, p.i || q.i)
  }

  function Minus(p: Pat, q: Pat): Pat {
    Pat(p.e && !q.e, p.p && !q.p, p.i && !q.i)
  }

  function FlagText(p: Pat): string {
    (if p.e then "e" else "") + (if p.i then "i" else "") + (if p.p then "p" else "")
  }

  // ---------- reading flags ----------

  predicate IsOp(c: char) {
    c == '=' || c == '+' || c == '-'
  }

  predicate IsFlag(c: char) {
    c == 'e' || c == 'i' || c == 'p'
  }

  function FlagOf(c: char): Pat {
    Pat(c == 'e', c == 'p', c == 'i')
  }

  /** The flags of the longest prefix of flag letters, and what follows it. */
  function ReadFlags(s: string): (r: (Pat, string))
    ensures |r.1| <= |s|
  {
    if s == "" || !IsFlag(s[0]) then (LOWERED, s)
    else var (fl, rest) := ReadFlags(s[1..]); (Plus(FlagOf(s[0]), fl), rest)
  }

  lemma ReadOneFlag(c: char, s: string)
    requires IsFlag(c)
    ensures ReadFlags([c] + s) == (Plus(FlagOf(c), ReadFlags(s).0), ReadFlags(s).1)
  {
    assert ([c] + s)[1..] == s;
  }

  lemma ReadFlagText(p: Pat, s: string)
    requires s == "" || !IsFlag(s[0])
    ensures ReadFlags(FlagText(p) + s) == (p, s)
  {
    var s1 := if p.p then ['p'] + s else s;
    var s2 := if p.i then ['i'] + s1 else s1;
    var s3 := if p.e then ['e'] + s2 else s2;
    assert FlagText(p) + s == s3;
    assert ReadFlags(s) == (LOWERED, s);
    hide ReadFlags;
    ReadOneFlag('p', s);
    ReadOneFlag('i', s1);
    ReadOneFlag('e', s2);
    assert ReadFlags(s1) == (Pat(false, p.p, false), s);
    assert ReadFlags(s2) == (Pat(false, p.p, p.i), s);
  }

  lemma FlagTextChars(p: Pat)
    ensures forall i :: 0 <= i < |FlagText(p)| ==> IsFlag(FlagText(p)[i])
  {
  }

  // ---------- clauses ----------

  /** A clause sets or raises `up` for its values and then lowers `down`. */
  datatype Clause = Clause(vals: seq<nat>, op: char, up: Pat, down: Pat)

  function ActionText(cl: Clause): string {
    (if cl.op == '=' || cl.up != LOWERED then [cl.op] + FlagText(cl.up) else "")
    + (if cl.down != LOWERED then "-" + FlagText(cl.down) else "")
  }

  function ClauseText(names: seq<string>, cl: Clause): string {
    Join(NamesOf(names, cl.vals), ',') + ActionText(cl)
  }

  function ClauseTexts(names: seq<string>, cls: seq<Clause>): (ss: seq<string>)
    ensures |ss| == |cls|
    ensures forall i :: 0 <= i < |cls| ==> ss[i] == ClauseText(names, cls[i])
  {
    seq(|cls|, i requires 0 <= i < |cls| => ClauseText(names, cls[i]))
  }

  /** The values of a range that have exactly the given flags, in order. */
  function Members(caps: Caps, p: Pat, lo: nat, hi: nat): (vs: seq<nat>)
    requires lo <= hi <= |caps|
    ensures forall v :: v in vs <==> lo <= v < hi && caps[v] == p
  {
    if lo == hi then []
    else Members(caps, p, lo, hi - 1) + (if caps[hi - 1] == p then [hi - 1] else [])
  }

  function Count(caps: Caps, code: nat, lo: nat, hi: nat): nat
    requires lo <= hi <= |caps|
  {
    |Members(caps, PatOf(code), lo, hi)|
  }

  /** The scan for the background: from code t - 1 down, equal counts move the choice. */
  function Scan(caps: Caps, lo: nat, hi: nat, t: nat, m: nat): nat
    requires lo <= hi <= |caps|
  {
    if t == 0 then m
    else Scan(caps, lo, hi, t - 1, if Count(caps, t - 1, lo, hi) >= Count(caps, m, lo, hi) then t - 1 else m)
  }

  /** The flags that most of the named values share. */
  function Background(caps: Caps, named: nat): nat
    requires named <= |caps|
  {
    Scan(caps, 0, named, 7, 7)
  }

  /** Clauses for the codes below i that differ from the background m. */
  function NamedGroups(caps: Caps, named: nat, m: nat, i: nat): seq<Clause>
    requires named <= |caps|
  {
    if i == 0 then []
    else
      var vals := Members(caps, PatOf(i - 1), 0, named);
      (if i - 1 == m || vals == [] then []
       else [Clause(vals, '+', Minus(PatOf(i - 1), PatOf(m)), Minus(PatOf(m), PatOf(i - 1)))])
      + NamedGroups(caps, named, m, i - 1)
  }

  /** Clauses for the codes from i - 1 to 1 among the unnamed values. */
  function UnnamedGroups(caps: Caps, named: nat, i: nat): seq<Clause>
    requires named <= |caps|
  {
    if i <= 1 then []
    else
      var vals := Members(caps, PatOf(i - 1), named, |caps|);
      (if vals == [] then [] else [Clause(vals, '+', PatOf(i - 1), LOWERED)])
      + UnnamedGroups(caps, named, i - 1)
  }

  /** The background clause, merged with the first group when nothing is in the background. */
  function Opening(m: nat, groups: seq<Clause>): seq<Clause> {
    if m == 0 && groups != [] then [groups[0].(op := '=')] + groups[1..]
    else [Clause([], '=', PatOf(m), LOWERED)] + groups
  }

  function Printed(caps: Caps, named: nat): seq<Clause>
    requires named <= |caps|
  {
    var m := Background(caps, named);
    Opening(m, NamedGroups(caps, named, m, 8)) + UnnamedGroups(caps, named, 8)
  }

  /** The canonical text of a set. */
  function TextOf(names: seq<string>, caps: Caps, named: nat): string
    requires named <= |caps|
  {
    Join(ClauseTexts(names, Printed(caps, named)), ' ')
  }

  // ---------- printed names ----------

  /** Printed names hold no operator, separator or white space, and none reads "all". */
  predicate Plain(s: string) {
    s != "" && forall i :: 0 <= i < |s| ==> !IsOp(s[i]) && s[i] != ',' && !IsSpace(s[i])
  }

  lemma NamesPlain(names: seq<string>, vals: seq<nat>)
    requires TableOk(names)
    ensures forall i :: 0 <= i < |vals| ==> Plain(NamesOf(names, vals)[i]) && NamesOf(names, vals)[i] != "all"
  {
    forall i | 0 <= i < |vals|
      ensures Plain(NameOf(names, vals[i])) && NameOf(names, vals[i]) != "all"
    {
      var s := NameOf(names, vals[i]);
      assert forall j :: 0 <= j < |s| ==> IsNameChar(s[j]) || IsDigit(s[j]);
      if vals[i] >= |names| {
        assert IsDigit(s[0]);
      }
    }
  }

  lemma {:induction false} JoinPlain(ss: seq<string>)
    requires ss != [] && forall i :: 0 <= i < |ss| ==> Plain(ss[i])
    ensures Join(ss, ',') != ""
    ensures forall i :: 0 <= i < |Join(ss, ',')| ==> !IsOp(Join(ss, ',')[i]) && !IsSpace(Join(ss, ',')[i])
    ensures |ss| > 1 ==> ',' in Join(ss, ',')
    decreases |ss|
  {
    if |ss| > 1 {
      JoinPlain(ss[1..]);
      assert Join(ss, ',')[|ss[0]|] == ',';
    }
  }

  // ---------- the background ----------

  lemma {:induction false} ScanIsBest(caps: Caps, lo: nat, hi: nat, t: nat, m: nat)
    requires lo <= hi <= |caps| && t <= m < 8
    requires forall c :: t <= c < m ==> Count(caps, c, lo, hi) < Count(caps, m, lo, hi)
    requires forall c :: m <= c < 8 ==> Count(caps, c, lo, hi) <= Count(caps, m, lo, hi)
    ensures var b := Scan(caps, lo, hi, t, m);
      && b < 8
      && (forall c :: 0 <= c < 8 ==> Count(caps, c, lo, hi) <= Count(caps, b, lo, hi))
      && (forall c :: 0 <= c < b ==> Count(caps, c, lo, hi) < Count(caps, b, lo, hi))
  {
    hide Members;
    if t > 0 {
      ScanIsBest(caps, lo, hi, t - 1, if Count(caps, t - 1, lo, hi) >= Count(caps, m, lo, hi) then t - 1 else m);
    }
  }

  /** The background is the least of the most frequent flag combinations. */
  lemma BackgroundIsLeastBest(caps: Caps, named: nat)
    requires named <= |caps|
    ensures var m := Background(caps, named);
      && m < 8
      && (forall c :: 0 <= c < 8 ==> Count(caps, c, 0, named) <= Count(caps, m, 0, named))
      && (forall c :: 0 <= c < m ==> Count(caps, c, 0, named) < Count(caps, m, 0, named))
  {
    ScanIsBest(caps, 0, named, 7, 7);
  }

  // ---------- what clauses mean ----------

  /** Raise the flags of `up` for the listed values. */
  function RaiseIn(caps: Caps, vals: seq<nat>, up: Pat): Caps {
    seq(|caps|, v requires 0 <= v < |caps| => if v in vals then Plus(caps[v], up) else caps[v])
  }

  function LowerIn(caps: Caps, vals: seq<nat>, down: Pat): Caps {
    seq(|caps|, v requires 0 <= v < |caps| => if v in vals then Minus(caps[v], down) else caps[v])
  }

  /** The first `named` values with the given flags, the others lowered. */
  function Uniform(n: nat, named: nat, p: Pat): Caps {
    seq(n, v => if v < named then p else LOWERED)
  }

  /** A clause applied to what the clauses before it built; `=` starts from nothing. */
  function Then(caps: Caps, named: nat, cl: Clause): Caps {
    if cl.op == '=' then
      LowerIn(if cl.vals == [] then Uniform(|caps|, named, cl.up) else RaiseIn(Empty(|caps|), cl.vals, cl.up),
              cl.vals, cl.down)
    else LowerIn(RaiseIn(caps, cl.vals, cl.up), cl.vals, cl.down)
  }

  function Meaning(caps: Caps, named: nat, cls: seq<Clause>): Caps
    decreases |cls|
  {
    if cls == [] then caps else Meaning(Then(caps, named, cls[0]), named, cls[1..])
  }

  // ---------- the printed clauses mean the set they were printed from ----------

  /** What a clause does to the flags p of one value. */
  function ThenAt(p: Pat, v: nat, named: nat, cl: Clause): Pat {
    var q :=
      if cl.op != '=' then p
      else if cl.vals == [] && v < named then cl.up
      else LOWERED;
    if v in cl.vals then Minus(Plus(q, cl.up), cl.down) else q
  }

  function MeaningAt(p: Pat, v: nat, named: nat, cls: seq<Clause>): Pat
    decreases |cls|
  {
    if cls == [] then p else MeaningAt(ThenAt(p, v, named, cls[0]), v, named, cls[1..])
  }

  lemma {:induction false} MeaningByValue(caps: Caps, named: nat, cls: seq<Clause>, v: nat)
    requires v < |caps|
    ensures |Meaning(caps, named, cls)| == |caps|
    ensures Meaning(caps, named, cls)[v] == MeaningAt(caps[v], v, named, cls)
    decreases |cls|
  {
    if cls != [] {
      MeaningByValue(Then(caps, named, cls[0]), named, cls[1..], v);
    }
  }

  lemma MeaningCons(p: Pat, v: nat, named: nat, cl: Clause, rest: seq<Clause>)
    ensures MeaningAt(p, v, named, [cl] + rest) == MeaningAt(ThenAt(p, v, named, cl), v, named, rest)
    ensures MeaningAt(p, v, named, []) == p
  {
    assert ([cl] + rest)[1..] == rest;
  }

  lemma {:induction false} MeaningAtConcat(p: Pat, v: nat, named: nat, xs: seq<Clause>, ys: seq<Clause>)
    ensures MeaningAt(p, v, named, xs + ys) == MeaningAt(MeaningAt(p, v, named, xs), v, named, ys)
    decreases |xs|
  {
    if xs == [] {
      assert xs + ys == ys;
    } else {
      assert (xs + ys)[1..] == xs[1..] + ys;
      MeaningAtConcat(ThenAt(p, v, named, xs[0]), v, named, xs[1..], ys);
    }
  }

  /** The group of a value's own flags turns the background into them; no other touches it. */
  lemma {:induction false} NamedGroupsAt(caps: Caps, named: nat, m: nat, i: nat, v: nat, p: Pat)
    requires named <= |caps| && m < 8 && i <= 8 && v < |caps|
    ensures
      var hit := v < named && CodeOf(caps[v]) < i && CodeOf(caps[v]) != m;
      MeaningAt(p, v, named, NamedGroups(caps, named, m, i))
      == if hit then Minus(Plus(p, Minus(caps[v], PatOf(m))), Minus(PatOf(m), caps[v])) else p
    decreases i
  {
    hide MeaningAt, Members, PatOf, CodeOf;
    if i == 0 {
      MeaningCons(p, v, named, Clause([], '+', p, p), []);
    } else {
      var rest := NamedGroups(caps, named, m, i - 1);
      var vals := Members(caps, PatOf(i - 1), 0, named);
      CodeOfPat(i - 1);
      if i - 1 == m || vals == [] {
        assert NamedGroups(caps, named, m, i) == rest;
        assert v < named && CodeOf(caps[v]) == i - 1 && i - 1 != m ==> v in vals;
        NamedGroupsAt(caps, named, m, i - 1, v, p);
      } else {
        var cl := Clause(vals, '+', Minus(PatOf(i - 1), PatOf(m)), Minus(PatOf(m), PatOf(i - 1)));
        assert NamedGroups(caps, named, m, i) == [cl] + rest;
        MeaningCons(p, v, named, cl, rest);
        assert v in vals <==> v < named && CodeOf(caps[v]) == i - 1;
        NamedGroupsAt(caps, named, m, i - 1, v, ThenAt(p, v, named, cl));
      }
    }
  }

  lemma {:induction false} UnnamedGroupsAt(caps: Caps, named: nat, i: nat, v: nat, p: Pat)
    requires named <= |caps| && i <= 8 && v < |caps|
    ensures
      var hit := named <= v && 0 < CodeOf(caps[v]) < i;
      MeaningAt(p, v, named, UnnamedGroups(caps, named, i)) == if hit then Plus(p, caps[v]) else p
    decreases i
  {
    hide MeaningAt, Members, PatOf, CodeOf;
    if i <= 1 {
      MeaningCons(p, v, named, Clause([], '+', p, p), []);
    } else {
      var rest := UnnamedGroups(caps, named, i - 1);
      var vals := Members(caps, PatOf(i - 1), named, |caps|);
      CodeOfPat(i - 1);
      if vals == [] {
        assert UnnamedGroups(caps, named, i) == rest;
        assert named <= v && CodeOf(caps[v]) == i - 1 ==> v in vals;
        UnnamedGroupsAt(caps, named, i - 1, v, p);
      } else {
        var cl := Clause(vals, '+', PatOf(i - 1), LOWERED);
        assert UnnamedGroups(caps, named, i) == [cl] + rest;
        MeaningCons(p, v, named, cl, rest);
        assert v in vals <==> named <= v && CodeOf(caps[v]) == i - 1;
        UnnamedGroupsAt(caps, named, i - 1, v, ThenAt(p, v, named, cl));
      }
    }
  }

  /** What the printers promise of a clause after the first. */
  predicate AddsTo(cl: Clause, n: nat) {
    && cl.op == '+' && cl.vals != []
    && (cl.up != LOWERED || cl.down != LOWERED)
    && forall v :: v in cl.vals ==> v < n
  }

  lemma {:induction false} NamedGroupsAdd(caps: Caps, named: nat, m: nat, i: nat)
    requires named <= |caps| && m < 8 && i <= 8
    ensures forall k :: 0 <= k < |NamedGroups(caps, named, m, i)| ==>
      AddsTo(NamedGroups(caps, named, m, i)[k], |caps|)
      && (m == 0 ==> NamedGroups(caps, named, m, i)[k].down == LOWERED && NamedGroups(caps, named, m, i)[k].up != LOWERED)
    decreases i
  {
    if i > 0 {
      NamedGroupsAdd(caps, named, m, i - 1);
      CodeOfPat(i - 1);
      CodeOfPat(m);
      CodeOfPat(0);
    }
  }

  lemma {:induction false} UnnamedGroupsAdd(caps: Caps, named: nat, i: nat)
    requires named <= |caps| && i <= 8
    ensures forall k :: 0 <= k < |UnnamedGroups(caps, named, i)| ==>
      AddsTo(UnnamedGroups(caps, named, i)[k], |caps|)
    decreases i
  {
    if i > 1 {
      UnnamedGroupsAdd(caps, named, i - 1);
      CodeOfPat(i - 1);
      CodeOfPat(0);
    }
  }

  /** Merging the first group into the background clause changes nothing. */
  lemma OpeningAt(caps: Caps, named: nat, m: nat, v: nat)
    requires named <= |caps| && m < 8 && v < |caps|
    ensures
      var groups := NamedGroups(caps, named, m, 8);
      MeaningAt(LOWERED, v, named, Opening(m, groups))
      == MeaningAt(if v < named then PatOf(m) else LOWERED, v, named, groups)
  {
    NamedGroupsAdd(caps, named, m, 8);
    var groups := NamedGroups(caps, named, m, 8);
    assert groups != [] ==> groups[0].op == '+' && groups[0].vals != [] && (m == 0 ==> groups[0].down == LOWERED);
    hide *;
    MergedOpening(groups, named, m, v);
  }

  lemma MergedOpening(groups: seq<Clause>, named: nat, m: nat, v: nat)
    requires m < 8
    requires m == 0 && groups != [] ==> groups[0].op == '+' && groups[0].vals != [] && groups[0].down == LOWERED
    ensures MeaningAt(LOWERED, v, named, Opening(m, groups))
      == MeaningAt(if v < named then PatOf(m) else LOWERED, v, named, groups)
  {
    hide MeaningAt;
    if m == 0 && groups != [] {
      assert groups == [groups[0]] + groups[1..];
      MeaningCons(LOWERED, v, named, groups[0], groups[1..]);
      MeaningCons(LOWERED, v, named, groups[0].(op := '='), groups[1..]);
    } else {
      MeaningCons(LOWERED, v, named, Clause([], '=', PatOf(m), LOWERED), groups);
    }
  }

  /** Reading the printed clauses from left to right over the empty set gives the set back:
      all three flags of every value, named and unnamed. */
  lemma PrintedMeansSet(caps: Caps, named: nat)
    requires named <= |caps|
    ensures Meaning(Empty(|caps|), named, Printed(caps, named)) == caps
  {
    BackgroundIsLeastBest(caps, named);
    var m := Background(caps, named);
    var cls := Printed(caps, named);
    hide Background, Opening, NamedGroups, UnnamedGroups;
    forall v | 0 <= v < |caps|
      ensures |Meaning(Empty(|caps|), named, cls)| == |caps|
      ensures Meaning(Empty(|caps|), named, cls)[v] == caps[v]
    {
      MeaningByValue(Empty(|caps|), named, cls, v);
      MeaningAtConcat(LOWERED, v, named, Opening(m, NamedGroups(caps, named, m, 8)), UnnamedGroups(caps, named, 8));
      OpeningAt(caps, named, m, v);
      NamedGroupsAt(caps, named, m, 8, v, if v < named then PatOf(m) else LOWERED);
      UnnamedGroupsAt(caps, named, 8, v, if v < named then caps[v] else LOWERED);
    }
    if |caps| == 0 {
      MeaningLength(Empty(0), named, cls);
    }
  }

  lemma {:induction false} MeaningLength(caps: Caps, named: nat, cls: seq<Clause>)
    ensures |Meaning(caps, named, cls)| == |caps|
    decreases |cls|
  {
    if cls != [] {
      MeaningLength(Then(caps, named, cls[0]), named, cls[1..]);
    }
  }

  /** The printed clauses are well formed: the first one sets, the others add. */
  lemma PrintedShape(caps: Caps, named: nat)
    requires named <= |caps|
    ensures var cls := Printed(caps, named);
      && cls != [] && cls[0].op == '='
      && (cls[0].vals == [] ==> cls[0].down == LOWERED)
      && (forall v :: v in cls[0].vals ==> v < |caps|)
      && forall k :: 1 <= k < |cls| ==> AddsTo(cls[k], |caps|)
  {
    BackgroundIsLeastBest(caps, named);
    NamedGroupsAdd(caps, named, Background(caps, named), 8);
    UnnamedGroupsAdd(caps, named, 8);
    hide NamedGroups, UnnamedGroups, Background;
  }

  lemma ClauseTextIsWord(names: seq<string>, cl: Clause, n: nat)
    requires TableOk(names)
    requires AddsTo(cl, n) || cl.op == '='
    ensures ClauseText(names, cl) != "" && NoSpace(ClauseText(names, cl))
  {
    NamesPlain(names, cl.vals);
    var l := Join(NamesOf(names, cl.vals), ',');
    if cl.vals != [] {
      JoinPlain(NamesOf(names, cl.vals));
    }
    hide Join, NamesOf;
    assert NoSpace(ActionText(cl)) by {
      FlagTextChars(cl.up);
      FlagTextChars(cl.down);
      hide FlagText;
    }
    assert ClauseText(names, cl) == l + ActionText(cl);
  }
}
