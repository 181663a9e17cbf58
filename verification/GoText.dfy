/** The text form of a capability set as the Go package reads and writes it. */
module GoText {
  import opened Words
  import opened CapSet
  import opened Strings
  import opened TextModel

  // ---------- names ----------

  /** The value that a name or a number stands for, below the limit of the set's size. */
  function FromName(names: seq<string>, limit: nat, s: string): Option<nat> {
    match Find(names, s)
    case Some(v) => if v >= limit then None else Some(v)
    case None =>
      match Atoi(s)
      case Some(i) => if 0 <= i < limit then Some(i) else None
      case None => None
  }

  function FromNames(names: seq<string>, limit: nat, ss: seq<string>): Option<seq<nat>> {
    if ss == [] then Some([])
    else
      match FromName(names, limit, ss[0])
      case None => None
      case Some(v) =>
        match FromNames(names, limit, ss[1..])
        case None => None
        case Some(vs) => Some([v] + vs)
  }

  // ---------- one clause ----------

  function OpAt(t: string): (n: nat)
    ensures n <= |t| && (n < |t| ==> IsOp(t[n]))
  {
    if t == "" || IsOp(t[0]) then 0 else 1 + OpAt(t[1..])
  }

  function FirstValues(n: nat): seq<nat> {
    seq(n, v requires 0 <= v => v)
  }

  /** A clause up to its first flags: its values, its operator, and the rest. The operators
      'P' and 'M' stand for "=+" and "=-" with no list of values. */
  datatype Header = Header(vs: seq<nat>, sep: char, rest: string)

  function ReadHeader(names: seq<string>, limit: nat, maxValues: nat, t: string): (r: Option<Header>)
    ensures r.Some? ==> |r.value.rest| < |t|
  {
    var i := OpAt(t);
    if i == |t| then None
    else if t[..i] == "all" then Some(Header(FirstValues(maxValues), t[i], t[i + 1..]))
    else if i > 0 then
      match FromNames(names, limit, Split(t[..i], ','))
      case None => None
      case Some(vs) => Some(Header(vs, t[i], t[i + 1..]))
    else if t[0] != '=' then None
    else if 2 < |t| && t[1] == '+' then Some(Header([], 'P', t[2..]))
    else if 2 < |t| && t[1] == '-' then Some(Header([], 'M', t[2..]))
    else Some(Header([], '=', t[1..]))
  }

  /** One operator with all its flags; every form of `=` first lowers everything. */
  function Act(caps: Caps, maxValues: nat, sep: char, vs: seq<nat>, fl: Pat): Option<Caps> {
    match sep
    case '=' => if vs == [] then Some(Uniform(|caps|, maxValues, fl)) else Some(RaiseIn(Empty(|caps|), vs, fl))
    case 'P' => if vs == [] then None else Some(RaiseIn(Empty(|caps|), vs, fl))
    case 'M' => Some(Empty(|caps|))
    case '+' => if vs == [] then None else Some(RaiseIn(caps, vs, fl))
    case _ => Some(LowerIn(caps, vs, fl))
  }

  /** The rest of a clause: flags, then any number of further operators with flags. */
  function Actions(caps: Caps, maxValues: nat, sep: char, vs: seq<nat>, s: string): Option<Caps>
    decreases |s|
  {
    var (fl, rest) := ReadFlags(s);
    if fl == LOWERED && sep != '=' then None
    else
      match Act(caps, maxValues, sep, vs, fl)
      case None => None
      case Some(c) =>
        if rest == "" then Some(c)
        else if rest[0] == '+' || rest[0] == '-' then Actions(c, maxValues, rest[0], vs, rest[1..])
        else None
  }

  function ReadClause(names: seq<string>, maxValues: nat, caps: Caps, t: string): Option<Caps> {
    match ReadHeader(names, |caps|, maxValues, t)
    case None => None
    case Some(h) => Actions(caps, maxValues, h.sep, h.vs, h.rest)
  }

  function ReadClauses(names: seq<string>, maxValues: nat, caps: Caps, ts: seq<string>): Option<Caps>
    decreases |ts|
  {
    if ts == [] then Some(caps)
    else
      match ReadClause(names, maxValues, caps, ts[0])
      case None => None
      case Some(c) => ReadClauses(names, maxValues, c, ts[1..])
  }

  /** The set that a text denotes, over n capability values of which maxValues are named. */
  function Parsed(names: seq<string>, maxValues: nat, n: nat, text: string): Option<Caps> {
    var ts := Tokens(text);
    if ts == [] then None else ReadClauses(names, maxValues, Empty(n), ts)
  }

  /** A clause that begins with any form of `=` forgets everything before it. */
  lemma EqualsForgets(names: seq<string>, maxValues: nat, before: Caps, before': Caps, t: string)
    requires |before| == |before'|
    requires var h := ReadHeader(names, |before|, maxValues, t);
      h.Some? ==> h.value.sep == '=' || h.value.sep == 'P' || h.value.sep == 'M'
    ensures ReadClause(names, maxValues, before, t) == ReadClause(names, maxValues, before', t)
  {
    hide ReadHeader;
    match ReadHeader(names, |before|, maxValues, t)
    case None =>
    case Some(h) => FirstActionForgets(maxValues, before, before', h.sep, h.vs, h.rest);
  }

  lemma FirstActionForgets(maxValues: nat, before: Caps, before': Caps, sep: char, vs: seq<nat>, s: string)
    requires |before| == |before'| && (sep == '=' || sep == 'P' || sep == 'M')
    ensures Actions(before, maxValues, sep, vs, s) == Actions(before', maxValues, sep, vs, s)
  {
    hide ReadFlags;
    var fl := ReadFlags(s).0;
    assert Act(before, maxValues, sep, vs, fl) == Act(before', maxValues, sep, vs, fl);
  }

  // ---------- reading back what was printed ----------

  /** The name or numeral printed for a value reads as that value. */
  lemma FromNameOf(names: seq<string>, limit: nat, v: nat)
    requires TableOk(names) && v < limit
    ensures FromName(names, limit, NameOf(names, v)) == Some(v)
  {
    if v < |names| {
      FindName(names, v);
    } else {
      AtoiDecimal(v);
      var s := Decimal(v);
      forall k | 0 <= k < |names|
        ensures names[k] != s
      {
        assert NameOk(names[k]) && IsNameChar(names[k][0]) && IsDigit(s[0]);
      }
    }
  }

  lemma {:induction false} FromNamesOf(names: seq<string>, limit: nat, vals: seq<nat>)
    requires TableOk(names) && forall v :: v in vals ==> v < limit
    ensures FromNames(names, limit, NamesOf(names, vals)) == Some(vals)
    decreases |vals|
  {
    if vals != [] {
      assert vals[0] in vals;
      assert forall v :: v in vals[1..] ==> v in vals;
      FromNameOf(names, limit, vals[0]);
      assert NamesOf(names, vals)[1..] == NamesOf(names, vals[1..]);
      FromNamesOf(names, limit, vals[1..]);
      assert vals == [vals[0]] + vals[1..];
    }
  }

  lemma {:induction false} OpAtPrefix(s: string, t: string)
    requires forall i :: 0 <= i < |s| ==> !IsOp(s[i])
    requires t != "" && IsOp(t[0])
    ensures OpAt(s + t) == |s|
    decreases |s|
  {
    if s == "" {
      assert s + t == t;
    } else {
      assert (s + t)[1..] == s[1..] + t;
      OpAtPrefix(s[1..], t);
    }
  }

  /** Running the actions printed for a clause. */
  lemma ActionsOf(caps: Caps, maxValues: nat, cl: Clause)
    requires cl.op == '+' || cl.op == '='
    requires cl.op == '+' ==> cl.vals != [] && (cl.up != LOWERED || cl.down != LOWERED)
    requires cl.vals == [] ==> cl.down == LOWERED
    ensures var a := ActionText(cl);
      && a != "" && IsOp(a[0])
      && (a[0] == '+' ==> cl.op == '+') && (a[0] == '=' <==> cl.op == '=')
      && Actions(caps, maxValues, a[0], cl.vals, a[1..]) == Some(Then(caps, maxValues, cl))
  {
    var a := ActionText(cl);
    var low := if cl.down != LOWERED then "-" + FlagText(cl.down) else "";
    hide FlagText;
    if cl.op == '=' || cl.up != LOWERED {
      assert a[1..] == FlagText(cl.up) + low;
      ReadFlagText(cl.up, low);
      if cl.down != LOWERED {
        assert low[1..] == FlagText(cl.down) + "";
        ReadFlagText(cl.down, "");
      }
    } else {
      assert a == low && low[1..] == FlagText(cl.down) + "";
      ReadFlagText(cl.down, "");
      assert RaiseIn(caps, cl.vals, LOWERED) == caps;
    }
    hide ReadFlags;
    ActedAs(caps, maxValues, cl);
  }

  /** Lowering no flags, or no values, changes nothing. */
  lemma ActedAs(caps: Caps, maxValues: nat, cl: Clause)
    ensures forall c: Caps :: cl.down == LOWERED ==> LowerIn(c, cl.vals, cl.down) == c
  {
    forall c: Caps | cl.down == LOWERED
      ensures LowerIn(c, cl.vals, cl.down) == c
    {
    }
  }

  /** The header of a printed clause. */
  lemma HeaderOf(names: seq<string>, limit: nat, maxValues: nat, cl: Clause, a: string)
    requires TableOk(names) && cl.vals != [] && a != "" && IsOp(a[0])
    requires forall v :: v in cl.vals ==> v < limit
    ensures ReadHeader(names, limit, maxValues, Join(NamesOf(names, cl.vals), ',') + a) == Some(Header(cl.vals, a[0], a[1..]))
  {
    var ss := NamesOf(names, cl.vals);
    NamesPlain(names, cl.vals);
    JoinPlain(ss);
    var l := Join(ss, ',');
    var t := l + a;
    OpAtPrefix(l, a);
    assert t[..|l|] == l && t[|l|..] == a && t[|l| + 1..] == a[1..];
    assert forall i :: 0 <= i < |ss| ==> ',' !in ss[i];
    SplitJoin(ss, ',');
    FromNamesOf(names, limit, cl.vals);
    assert l != "all" by {
      if |ss| == 1 {
        assert l == ss[0];
      } else {
        assert ',' !in "all";
      }
    }
    hide Join, Split, NamesOf, FromNames, OpAt;
  }

  /** A printed clause, read over any set, does what the clause means. */
  lemma ReadClauseText(names: seq<string>, maxValues: nat, caps: Caps, cl: Clause)
    requires TableOk(names)
    requires cl.op == '+' || cl.op == '='
    requires cl.op == '+' ==> AddsTo(cl, |caps|)
    requires cl.vals == [] ==> cl.down == LOWERED
    requires forall v :: v in cl.vals ==> v < |caps|
    ensures ReadClause(names, maxValues, caps, ClauseText(names, cl)) == Some(Then(caps, maxValues, cl))
  {
    ActionsOf(caps, maxValues, cl);
    var a := ActionText(cl);
    if cl.vals == [] {
      assert ClauseText(names, cl) == a;
      OpeningHeader(names, |caps|, maxValues, cl);
    } else {
      HeaderOf(names, |caps|, maxValues, cl, a);
    }
    hide ReadHeader, Actions, Join, NamesOf, ActionText, Then, TableOk;
  }

  lemma OpeningHeader(names: seq<string>, limit: nat, maxValues: nat, cl: Clause)
    requires cl.op == '=' && cl.vals == [] && cl.down == LOWERED
    ensures ReadHeader(names, limit, maxValues, ActionText(cl)) == Some(Header([], '=', ActionText(cl)[1..]))
  {
    var a := ActionText(cl);
    assert a[0] == '=';
    assert a[..0] == "";
    assert forall i :: 1 <= i < |a| ==> a[i] == FlagText(cl.up)[i - 1];
  }

  lemma {:induction false} ReadClauseTexts(names: seq<string>, maxValues: nat, caps: Caps, cls: seq<Clause>)
    requires TableOk(names) && forall k :: 0 <= k < |cls| ==> AddsTo(cls[k], |caps|)
    ensures ReadClauses(names, maxValues, caps, ClauseTexts(names, cls)) == Some(Meaning(caps, maxValues, cls))
    decreases |cls|
  {
    if cls != [] {
      ReadClauseText(names, maxValues, caps, cls[0]);
      assert ClauseTexts(names, cls)[1..] == ClauseTexts(names, cls[1..]);
      ReadClauseTexts(names, maxValues, Then(caps, maxValues, cls[0]), cls[1..]);
    }
  }

  /** The Go package reads every set's text back as that set. */
  lemma GoRoundTrip(names: seq<string>, maxValues: nat, caps: Caps)
    requires TableOk(names) && 0 < maxValues <= |caps|
    ensures Parsed(names, maxValues, |caps|, TextOf(names, caps, maxValues)) == Some(caps)
  {
    var cls := Printed(caps, maxValues);
    var ts := ClauseTexts(names, cls);
    var none := Empty(|caps|);
    PrintedWords(names, maxValues, caps);
    PrintedShape(caps, maxValues);
    PrintedMeansSet(caps, maxValues);
    ThenLength(none, maxValues, cls[0]);
    assert ts[1..] == ClauseTexts(names, cls[1..]);
    assert Meaning(none, maxValues, cls) == Meaning(Then(none, maxValues, cls[0]), maxValues, cls[1..]);
    hide Printed, ClauseText, Tokens, Join, ReadClause, AddsTo, Then, TableOk, Meaning, TextOf;
    ReadClauseText(names, maxValues, none, cls[0]);
    ReadClauseTexts(names, maxValues, Then(none, maxValues, cls[0]), cls[1..]);
  }

  /** The words of a printed text are its clauses. */
  lemma PrintedWords(names: seq<string>, maxValues: nat, caps: Caps)
    requires TableOk(names) && maxValues <= |caps|
    ensures Tokens(TextOf(names, caps, maxValues)) == ClauseTexts(names, Printed(caps, maxValues))
  {
    var cls := Printed(caps, maxValues);
    var ts := ClauseTexts(names, cls);
    PrintedShape(caps, maxValues);
    hide Printed, ClauseText, Tokens, Join, TableOk;
    forall k | 0 <= k < |ts|
      ensures ts[k] != "" && NoSpace(ts[k])
    {
      ClauseTextIsWord(names, cls[k], |caps|);
    }
    TokensJoin(ts);
  }

  lemma ThenLength(caps: Caps, named: nat, cl: Clause)
    ensures |Then(caps, named, cl)| == |caps|
  {
  }
}
