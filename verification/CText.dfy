/** The text form of a capability set as the C library reads it: a list of clauses, each a
    list of values and a list of actions on them. */
module CText {
  import opened Words
  import opened CapSet
  import opened Strings
  import opened TextModel

  // ---------- what clauses mean ----------

  /** An operator with its flags; 'P' and 'M' stand for "=+" and "=-". */
  datatype Action = Action(op: char, flags: Pat)

  datatype Listed = Listed(list: set<nat>, acts: seq<Action>)

  predicate IsAct(op: char) {
    op == '=' || op == 'P' || op == 'M' || op == '+' || op == '-'
  }

  /** What an action does to the flags of one listed value. */
  function Effect(a: Action, p: Pat): Pat {
    if a.op == '+' then Plus(p, a.flags)
    else if a.op == '-' then Minus(p, a.flags)
    else if a.op == 'M' then LOWERED
    else a.flags
  }

  /** Values outside the list keep their flags, whatever the operator. */
  function Apply(caps: Caps, list: set<nat>, a: Action): Caps {
    seq(|caps|, v requires 0 <= v < |caps| => if v in list then Effect(a, caps[v]) else caps[v])
  }

  function ApplyAll(caps: Caps, list: set<nat>, acts: seq<Action>): Caps
    decreases |acts|
  {
    if acts == [] then caps else ApplyAll(Apply(caps, list, acts[0]), list, acts[1..])
  }

  /** Clauses run from left to right. */
  function Denote(caps: Caps, cls: seq<Listed>): Caps
    decreases |cls|
  {
    if cls == [] then caps else Denote(ApplyAll(caps, cls[0].list, cls[0].acts), cls[1..])
  }

  /** Repeating an operator after each further letter is the operator with all the letters. */
  lemma ApplyAgain(caps: Caps, list: set<nat>, op: char, f: Pat, g: Pat)
    ensures Apply(Apply(caps, list, Action(op, f)), list, Action(op, Plus(f, g))) == Apply(caps, list, Action(op, Plus(f, g)))
  {
  }

  // ---------- characters ----------

  predicate IsLower(c: char) {
    'a' <= c <= 'z'
  }

  predicate IsAlpha(c: char) {
    IsLower(c) || 'A' <= c <= 'Z'
  }

  predicate IsWordChar(c: char) {
    IsAlpha(c) || IsDigit(c) || c == '_'
  }

  function ToLower(c: char): char {
    if 'A' <= c <= 'Z' then "abcdefghijklmnopqrstuvwxyz"[(c as int) - ('A' as int)] else c
  }

  function Lowered(s: string): (t: string)
    ensures |t| == |s|
  {
    if s == "" then "" else [ToLower(s[0])] + Lowered(s[1..])
  }

  // ---------- names and numbers ----------

  /** What follows a name at the front of a string, when the name ends there. */
  function NameCompare(s: string, name: string): (r: Option<string>)
    ensures r.Some? ==> |r.value| == |s| - |name|
  {
    if name == "" then if s != "" && IsWordChar(s[0]) then None else Some(s)
    else if s != "" && ToLower(s[0]) == name[0] then NameCompare(s[1..], name[1..])
    else None
  }

  function ValueOfDigit(c: char): nat {
    if IsDigit(c) then DigitVal(c)
    else if 'a' <= c <= 'f' then (c as int) - ('a' as int) + 10
    else if 'A' <= c <= 'F' then (c as int) - ('A' as int) + 10
    else 16
  }

  /** The number that the digits at the front of a string spell, and what follows them. */
  function Digits(s: string, base: nat, acc: nat): (r: (nat, string))
    ensures |r.1| <= |s|
    ensures s != "" && ValueOfDigit(s[0]) < base ==> |r.1| < |s|
  {
    if s == "" || ValueOfDigit(s[0]) >= base then (acc, s)
    else Digits(s[1..], base, base * acc + ValueOfDigit(s[0]))
  }

  /** The C library's strtoul with base 0: a prefix chooses hexadecimal or octal. */
  function ReadNumber(s: string): (r: (nat, string))
    requires s != "" && IsDigit(s[0])
    ensures |r.1| < |s|
  {
    if s[0] != '0' then Digits(s, 10, 0)
    else if 2 < |s| && (s[1] == 'x' || s[1] == 'X') && ValueOfDigit(s[2]) < 16 then Digits(s[2..], 16, 0)
    else Digits(s, 8, 0)
  }

  function LettersLen(s: string): (n: nat)
    ensures n <= |s|
  {
    if s != "" && (IsAlpha(s[0]) || s[0] == '_') then 1 + LettersLen(s[1..]) else 0
  }

  /** The search of the table from entry n - 1 down. */
  function Search(names: seq<string>, n: nat, s: string): (r: Option<(nat, string)>)
    requires TableOk(names) && n <= |names|
    ensures r.Some? ==> |r.value.1| < |s|
  {
    if n == 0 then None
    else
      match NameCompare(s, names[n - 1])
      case Some(rest) => Some((n - 1, rest))
      case None => Search(names, n - 1, s)
  }

  /** A build reads names either through a generated hash over the whole table or by a search
      of the names that the running kernel has. */
  datatype Build = Build(names: seq<string>, gperf: bool, maxBits: nat, bits: nat)

  predicate BuildOk(b: Build) {
    TableOk(b.names) && |b.names| <= b.bits && b.maxBits <= b.bits
  }

  /** The value at the front of a string and what follows it. */
  function LookupName(b: Build, s: string): (r: Option<(nat, string)>)
    requires BuildOk(b) && s != "" && IsWordChar(s[0])
    ensures r.Some? ==> |r.value.1| < |s|
  {
    if IsDigit(s[0]) then
      var (n, rest) := ReadNumber(s);
      if n >= b.bits then None else Some((n, rest))
    else if b.gperf then
      var len := LettersLen(s);
      match Find(b.names, Lowered(s[..len]))
      case Some(v) => Some((v, s[len..]))
      case None => None
    else Search(b.names, if b.maxBits > |b.names| then |b.names| else b.maxBits, s)
  }

  // ---------- clauses ----------

  /** A list of values; "all" replaces whatever was listed before it. */
  function ReadList(b: Build, s: string, list: set<nat>): (r: Option<(set<nat>, string)>)
    requires BuildOk(b) && s != "" && IsWordChar(s[0])
    ensures r.Some? ==> |r.value.1| < |s|
    decreases |s|
  {
    var item: Option<(set<nat>, string)> := if NameCompare(s, "all").Some? then Some((Below(b.maxBits), s[3..]))
      else match LookupName(b, s) case None => None case Some(r) => Some((list + {r.0}, r.1));
    match item
    case None => None
    case Some((l, t)) =>
      if t == "" || t[0] != ',' then Some((l, t))
      else if t[1..] == "" || !IsWordChar(t[1]) then None
      else ReadList(b, t[1..], l)
  }

  predicate AtEnd(s: string) {
    s == "" || IsSpace(s[0])
  }

  /** The actions of a clause, each an operator once with all its letters. */
  function ReadActs(listed: bool, op: char, s: string): (r: Option<(seq<Action>, string)>)
    ensures r.Some? ==> |r.value.1| <= |s|
    decreases |s|
  {
    var (fl, rest) := ReadFlags(s);
    if fl == LOWERED then
      if op == '=' && AtEnd(rest) then Some(([Action(op, fl)], rest)) else None
    else if AtEnd(rest) then Some(([Action(op, fl)], rest))
    else if listed && (rest[0] == '+' || rest[0] == '-') then
      match ReadActs(listed, rest[0], rest[1..])
      case None => None
      case Some((acts, t)) => Some(([Action(op, fl)] + acts, t))
    else None
  }

  /** The first operator after a list. */
  function ReadOp(listed: bool, s: string): (r: Option<(char, string)>)
    ensures r.Some? ==> |r.value.1| < |s| && IsAct(r.value.0)
  {
    if s == "" then None
    else if s[0] == '=' && 1 < |s| && (s[1] == '+' || s[1] == '-') then
      if listed then Some((if s[1] == '+' then 'P' else 'M', s[2..])) else None
    else if s[0] == '+' || s[0] == '-' || s[0] == '=' then Some((s[0], s[1..]))
    else None
  }

  function ReadListed(b: Build, s: string): (r: Option<(set<nat>, string)>)
    requires BuildOk(b) && s != ""
    ensures r.Some? ==> |r.value.1| <= |s|
  {
    if IsWordChar(s[0]) then ReadList(b, s, {})
    else if s[0] == '+' || s[0] == '-' then None
    else Some((Below(b.maxBits), s))
  }

  function ReadClause(b: Build, s: string): (r: Option<(Listed, string)>)
    requires BuildOk(b) && s != ""
    ensures r.Some? ==> |r.value.1| < |s|
  {
    match ReadListed(b, s)
    case None => None
    case Some((list, t)) =>
      match ReadOp(IsWordChar(s[0]), t)
      case None => None
      case Some((op, u)) =>
        match ReadActs(IsWordChar(s[0]), op, u)
        case None => None
        case Some((acts, rest)) => Some((Listed(list, acts), rest))
  }

  /** The clauses of a text; an empty text has none. */
  function ReadText(b: Build, s: string): Option<seq<Listed>>
    requires BuildOk(b)
    decreases |s|
  {
    if s == "" then Some([])
    else if IsSpace(s[0]) then ReadText(b, s[1..])
    else
      match ReadClause(b, s)
      case None => None
      case Some((cl, rest)) =>
        match ReadText(b, rest)
        case None => None
        case Some(cls) => Some([cl] + cls)
  }

  /** The set that a text denotes. */
  function Parsed(b: Build, s: string): Option<Caps>
    requires BuildOk(b)
  {
    match ReadText(b, s)
    case None => None
    case Some(cls) => Some(Denote(Empty(b.bits), cls))
  }

  // ---------- reading back what was printed ----------

  predicate EndsWord(t: string) {
    t == "" || !IsWordChar(t[0])
  }

  lemma {:induction false} LoweredName(s: string)
    requires forall i :: 0 <= i < |s| ==> IsNameChar(s[i])
    ensures Lowered(s) == s
  {
    if s != "" {
      LoweredName(s[1..]);
    }
  }

  lemma {:induction false} LettersOfName(s: string, t: string)
    requires EndsWord(t) && forall i :: 0 <= i < |s| ==> IsNameChar(s[i])
    ensures LettersLen(s + t) == |s|
  {
    if s == "" {
      assert s + t == t;
    } else {
      assert (s + t)[1..] == s[1..] + t;
      LettersOfName(s[1..], t);
    }
  }

  /** A name compares equal to itself only, not to a longer or a shorter one. */
  lemma {:induction false} NameCompareAt(s: string, t: string, name: string)
    requires EndsWord(t)
    requires forall i :: 0 <= i < |s| ==> IsNameChar(s[i])
    requires forall i :: 0 <= i < |name| ==> IsNameChar(name[i])
    ensures NameCompare(s + t, name) == if s == name then Some(t) else None
    decreases |s|
  {
    if s == "" {
      assert s + t == t;
    } else {
      assert (s + t)[1..] == s[1..] + t;
      if name != "" {
        NameCompareAt(s[1..], t, name[1..]);
        assert s == [s[0]] + s[1..] && name == [name[0]] + name[1..];
      }
    }
  }

  lemma {:induction false} SearchName(names: seq<string>, n: nat, v: nat, t: string)
    requires TableOk(names) && n <= |names| && v < |names| && EndsWord(t)
    ensures Search(names, n, names[v] + t) == if v < n then Some((v, t)) else None
    decreases n
  {
    if n > 0 {
      NameCompareAt(names[v], t, names[n - 1]);
      SearchName(names, n - 1, v, t);
      assert names[v] == names[n - 1] <==> v == n - 1;
    }
  }

  /** The number built digit by digit from the left. */
  function FromLeft(s: string, acc: nat): nat
    requires AllDigits(s)
  {
    if s == "" then acc else FromLeft(s[1..], 10 * acc + DigitVal(s[0]))
  }

  lemma {:induction false} FromLeftLast(s: string, acc: nat)
    requires s != "" && AllDigits(s)
    ensures FromLeft(s, acc) == 10 * FromLeft(s[..|s| - 1], acc) + DigitVal(s[|s| - 1])
  {
    if |s| > 1 {
      FromLeftLast(s[1..], 10 * acc + DigitVal(s[0]));
      assert s[1..][..|s| - 2] == s[..|s| - 1][1..];
    }
  }

  lemma {:induction false} FromLeftIsNumber(s: string)
    requires AllDigits(s)
    ensures FromLeft(s, 0) == Number(s, 10)
  {
    if s != "" {
      FromLeftLast(s, 0);
      FromLeftIsNumber(s[..|s| - 1]);
    }
  }

  lemma {:induction false} DigitsOf(s: string, t: string, acc: nat)
    requires AllDigits(s) && EndsWord(t)
    ensures Digits(s + t, 10, acc) == (FromLeft(s, acc), t)
    decreases |s|
  {
    if s == "" {
      assert s + t == t;
    } else {
      assert (s + t)[1..] == s[1..] + t;
      DigitsOf(s[1..], t, 10 * acc + DigitVal(s[0]));
    }
  }

  lemma NumeralReads(v: nat, t: string)
    requires EndsWord(t)
    ensures IsDigit(Decimal(v)[0]) && ReadNumber(Decimal(v) + t) == (v, t)
  {
    NumberOfDecimal(v);
    var s := Decimal(v);
    if v == 0 {
      assert (s + t)[1..] == t;
      assert Digits(t, 8, 0) == (0, t);
    } else {
      DigitsOf(s, t, 0);
      FromLeftIsNumber(s);
    }
  }

  /** A search finds only the names of values that the kernel has; everything else printed
      for a value reads as that value. */
  predicate Readable(b: Build, v: nat) {
    v < |b.names| ==> b.gperf || v < b.maxBits
  }

  lemma LookupPrinted(b: Build, v: nat, t: string)
    requires BuildOk(b) && v < b.bits && EndsWord(t)
    ensures var s := NameOf(b.names, v) + t;
      && IsWordChar(s[0])
      && LookupName(b, s) == (if Readable(b, v) then Some((v, t)) else None)
      && NameCompare(s, "all") == None
  {
    var s := NameOf(b.names, v);
    if v >= |b.names| {
      hide Digits;
      NumeralReads(v, t);
    } else {
      assert NameOk(s);
      assert "all"[0] == 'a' && "all"[1] == 'l' && "all"[2] == 'l';
      NameCompareAt(s, t, "all");
      if b.gperf {
        LoweredName(s);
        LettersOfName(s, t);
        assert (s + t)[..|s|] == s && (s + t)[|s|..] == t;
        FindName(b.names, v);
      } else {
        SearchName(b.names, if b.maxBits > |b.names| then |b.names| else b.maxBits, v, t);
      }
    }
  }

  function SetOf(vals: seq<nat>): (vs: set<nat>)
    ensures forall v :: v in vs <==> v in vals
  {
    if vals == [] then {} else {vals[0]} + SetOf(vals[1..])
  }

  lemma OneListed(b: Build, v: nat, t: string, list: set<nat>)
    requires BuildOk(b) && v < b.bits && EndsWord(t)
    ensures var s := NameOf(b.names, v) + t;
      && IsWordChar(s[0])
      && ReadList(b, s, list) ==
        if !Readable(b, v) then None
        else if t == "" || t[0] != ',' then Some((list + {v}, t))
        else if t[1..] == "" || !IsWordChar(t[1]) then None
        else ReadList(b, t[1..], list + {v})
  {
    LookupPrinted(b, v, t);
    hide LookupName, NameCompare, NameOf, Readable;
  }

  predicate AllReadable(b: Build, vals: seq<nat>) {
    forall v :: v in vals ==> Readable(b, v)
  }

  lemma ListFromFirst(b: Build, vals: seq<nat>, t: string)
    requires vals != []
    ensures
      var text, rest := Join(NamesOf(b.names, vals), ',') + t, vals[1..];
      text == NameOf(b.names, vals[0]) + if rest == [] then t else "," + (Join(NamesOf(b.names, rest), ',') + t)
  {
    hide NameOf;
    var ss := NamesOf(b.names, vals);
    assert ss[1..] == NamesOf(b.names, vals[1..]);
    hide NamesOf;
    if vals[1..] != [] {
      var l := Join(ss[1..], ',');
      assert ss[0] + "," + l + t == ss[0] + ("," + (l + t));
    }
  }

  lemma SetFromFirst(b: Build, vals: seq<nat>, list: set<nat>)
    requires vals != []
    ensures AllReadable(b, vals) <==> Readable(b, vals[0]) && AllReadable(b, vals[1..])
    ensures list + SetOf(vals) == list + {vals[0]} + SetOf(vals[1..])
    ensures vals[1..] == [] ==> AllReadable(b, vals[1..]) && list + SetOf(vals) == list + {vals[0]}
  {
    hide Readable;
    assert vals == [vals[0]] + vals[1..];
  }

  /** A printed list reads as its values, or not at all when one is unreadable. */
  lemma {:induction false} ListPrinted(b: Build, vals: seq<nat>, t: string, list: set<nat>)
    requires BuildOk(b) && vals != [] && EndsWord(t) && (t == "" || t[0] != ',')
    requires forall v :: v in vals ==> v < b.bits
    ensures var s := Join(NamesOf(b.names, vals), ',') + t;
      && s != "" && IsWordChar(s[0])
      && ReadList(b, s, list) == if AllReadable(b, vals) then Some((list + SetOf(vals), t)) else None
    decreases |vals|
  {
    var v, rest := vals[0], vals[1..];
    ListFromFirst(b, vals, t);
    SetFromFirst(b, vals, list);
    var u := Join(NamesOf(b.names, rest), ',') + t;
    hide *;
    OneListed(b, v, if rest == [] then t else "," + u, list);
    if rest != [] {
      ListPrinted(b, rest, t, list + {v});
      assert ("," + u)[1..] == u;
    }
  }

  // ---------- printed clauses ----------

  /** The printers' clauses: a list that is added to, or what a text opens with. */
  predicate Printable(cl: Clause) {
    || (cl.op == '+' && cl.vals != [] && (cl.up != LOWERED || cl.down != LOWERED))
    || (cl.op == '=' && cl.down == LOWERED)
  }

  function ActsOf(cl: Clause): seq<Action> {
    (if cl.op == '=' || cl.up != LOWERED then [Action(cl.op, cl.up)] else [])
    + (if cl.down != LOWERED then [Action('-', cl.down)] else [])
  }

  lemma ActionShape(cl: Clause, t: string)
    requires Printable(cl)
    ensures var a, up, down := ActionText(cl), FlagText(cl.up), FlagText(cl.down);
      && a != ""
      && if cl.down == LOWERED then
          a[0] == cl.op && a[1..] + t == up + t && ActsOf(cl) == [Action(cl.op, cl.up)]
        else if cl.up == LOWERED then
          a[0] == '-' && a[1..] + t == down + t && ActsOf(cl) == [Action('-', cl.down)]
        else
          && a[0] == cl.op && a[1..] + t == up + ("-" + (down + t))
          && ActsOf(cl) == [Action(cl.op, cl.up)] + [Action('-', cl.down)]
  {
    hide FlagText;
  }

  lemma OpPrinted(cl: Clause, listed: bool, t: string)
    requires Printable(cl) && AtEnd(t)
    ensures var a := ActionText(cl);
      a != "" && IsOp(a[0]) && ReadOp(listed, a + t) == Some((a[0], a[1..] + t))
  {
    ActionShape(cl, t);
    FlagTextChars(cl.up);
    var a := ActionText(cl);
    hide ActionText, ActsOf, FlagText;
    assert (a + t)[1..] == a[1..] + t;
  }

  lemma ActsPrinted(cl: Clause, listed: bool, t: string)
    requires Printable(cl) && AtEnd(t) && (cl.op == '+' ==> listed)
    ensures var a := ActionText(cl);
      a != "" && ReadActs(listed, a[0], a[1..] + t) == Some((ActsOf(cl), t))
  {
    var low := "-" + (FlagText(cl.down) + t);
    ActionShape(cl, t);
    ActsOnce('-', listed, cl.down, t);
    ActsOnce(cl.op, listed, cl.up, t);
    ActsOnce(cl.op, listed, cl.up, low);
    hide FlagText, ReadActs, ActionText, ActsOf;
    assert low[1..] == FlagText(cl.down) + t;
  }

  lemma ActsOnce(op: char, listed: bool, fl: Pat, t: string)
    requires t == "" || !IsFlag(t[0])
    ensures ReadActs(listed, op, FlagText(fl) + t) ==
      if fl == LOWERED then (if op == '=' && AtEnd(t) then Some(([Action(op, fl)], t)) else None)
      else if AtEnd(t) then Some(([Action(op, fl)], t))
      else if listed && (t[0] == '+' || t[0] == '-') then
        match ReadActs(listed, t[0], t[1..])
        case None => None
        case Some((acts, u)) => Some(([Action(op, fl)] + acts, u))
      else None
  {
    ReadFlagText(fl, t);
    hide FlagText, ReadFlags;
  }

  function ListOf(b: Build, cl: Clause): set<nat> {
    if cl.vals == [] then Below(b.maxBits) else SetOf(cl.vals)
  }

  lemma ListedPrinted(b: Build, cl: Clause, a: string)
    requires BuildOk(b) && a != "" && IsOp(a[0])
    requires cl.vals == [] ==> a[0] == '='
    requires forall v :: v in cl.vals ==> v < b.bits
    ensures var s := Join(NamesOf(b.names, cl.vals), ',') + a;
      && s != "" && !IsSpace(s[0]) && (IsWordChar(s[0]) <==> cl.vals != [])
      && ReadListed(b, s) == if AllReadable(b, cl.vals) then Some((ListOf(b, cl), a)) else None
  {
    if cl.vals == [] {
      assert NamesOf(b.names, []) == [];
      assert Join([], ',') + a == a;
    } else {
      ListPrinted(b, cl.vals, a, {});
      assert {} + SetOf(cl.vals) == SetOf(cl.vals);
    }
    hide ReadList, NamesOf, Join, SetOf, Below;
  }

  /** A printed clause reads as its list and its actions, when the list is readable. */
  lemma ClausePrinted(b: Build, cl: Clause, t: string)
    requires BuildOk(b) && Printable(cl) && AtEnd(t)
    requires forall v :: v in cl.vals ==> v < b.bits
    ensures var s := ClauseText(b.names, cl) + t;
      && s != "" && !IsSpace(s[0])
      && ReadClause(b, s) ==
        if AllReadable(b, cl.vals) then Some((Listed(ListOf(b, cl), ActsOf(cl)), t)) else None
  {
    var a := ActionText(cl);
    OpPrinted(cl, cl.vals != [], t);
    ActsPrinted(cl, cl.vals != [], t);
    ActionShape(cl, t);
    ListedPrinted(b, cl, a + t);
    var l := Join(NamesOf(b.names, cl.vals), ',');
    assert l + a + t == l + (a + t);
    hide ActionText, ActsOf, ReadActs, ReadOp, ReadListed, NamesOf, Join, AllReadable, ListOf;
  }

  lemma ApplyIsThen(caps: Caps, vals: seq<nat>, p: Pat)
    ensures Apply(caps, SetOf(vals), Action('+', p)) == RaiseIn(caps, vals, p)
    ensures Apply(caps, SetOf(vals), Action('-', p)) == LowerIn(caps, vals, p)
    ensures caps == Empty(|caps|) ==> Apply(caps, SetOf(vals), Action('=', p)) == RaiseIn(caps, vals, p)
    ensures RaiseIn(caps, vals, LOWERED) == caps && LowerIn(caps, vals, LOWERED) == caps
  {
    hide SetOf;
  }

  lemma ApplyIsUniform(n: nat, named: nat, p: Pat)
    ensures Apply(Empty(n), Below(named), Action('=', p)) == Uniform(n, named, p)
    ensures LowerIn(Uniform(n, named, p), [], LOWERED) == Uniform(n, named, p)
  {
    hide Below;
  }

  lemma ApplyAllShort(caps: Caps, list: set<nat>, a: Action, a': Action)
    ensures ApplyAll(caps, list, [a]) == Apply(caps, list, a)
    ensures ApplyAll(caps, list, [a, a']) == Apply(Apply(caps, list, a), list, a')
  {
    assert [a, a'][1..] == [a'];
    assert ApplyAll(Apply(caps, list, a), list, [a']) == Apply(Apply(caps, list, a), list, a');
  }

  /** What a printed clause reads as does what the clause means. */
  lemma ListedMeans(b: Build, caps: Caps, cl: Clause)
    requires Printable(cl) && (cl.op == '=' ==> caps == Empty(|caps|))
    ensures ApplyAll(caps, ListOf(b, cl), ActsOf(cl)) == Then(caps, b.maxBits, cl)
  {
    var list := ListOf(b, cl);
    ApplyAllShort(caps, list, Action(cl.op, cl.up), Action('-', cl.down));
    ApplyAllShort(caps, list, Action('-', cl.down), Action('-', cl.down));
    ApplyIsThen(caps, cl.vals, cl.up);
    ApplyIsThen(RaiseIn(caps, cl.vals, cl.up), cl.vals, cl.down);
    ApplyIsUniform(|caps|, b.maxBits, cl.up);
    hide ApplyAll, Apply, SetOf, Below, RaiseIn, LowerIn, Uniform;
  }

  function AllListed(b: Build, cls: seq<Clause>): seq<Listed> {
    if cls == [] then [] else [Listed(ListOf(b, cls[0]), ActsOf(cls[0]))] + AllListed(b, cls[1..])
  }

  predicate ClausesReadable(b: Build, cls: seq<Clause>) {
    cls == [] || (AllReadable(b, cls[0].vals) && ClausesReadable(b, cls[1..]))
  }

  lemma {:induction false} TextPrinted(b: Build, cls: seq<Clause>)
    requires BuildOk(b)
    requires forall k :: 0 <= k < |cls| ==> Printable(cls[k]) && forall v :: v in cls[k].vals ==> v < b.bits
    ensures ReadText(b, Join(ClauseTexts(b.names, cls), ' ')) ==
      if ClausesReadable(b, cls) then Some(AllListed(b, cls)) else None
    decreases |cls|
  {
    if cls != [] {
      var ts := ClauseTexts(b.names, cls);
      var t := if |cls| == 1 then "" else " " + Join(ts[1..], ' ');
      assert ts[1..] == ClauseTexts(b.names, cls[1..]);
      assert Join(ts, ' ') == ts[0] + t;
      ClausePrinted(b, cls[0], t);
      TextPrinted(b, cls[1..]);
      hide ReadClause, ClauseText, ClauseTexts, AllReadable;
      if |cls| == 1 {
        assert ReadText(b, t) == Some([]);
      } else {
        assert t[1..] == Join(ts[1..], ' ');
      }
    }
  }

  lemma {:induction false} AllListedMeans(b: Build, caps: Caps, cls: seq<Clause>)
    requires forall k :: 0 <= k < |cls| ==> Printable(cls[k]) && cls[k].op == '+'
    ensures Denote(caps, AllListed(b, cls)) == Meaning(caps, b.maxBits, cls)
    decreases |cls|
  {
    if cls != [] {
      ListedMeans(b, caps, cls[0]);
      hide ApplyAll, ListOf, ActsOf, Then;
      AllListedMeans(b, Then(caps, b.maxBits, cls[0]), cls[1..]);
      var first := [Listed(ListOf(b, cls[0]), ActsOf(cls[0]))];
      assert AllListed(b, cls) == first + AllListed(b, cls[1..]);
      assert (first + AllListed(b, cls[1..]))[1..] == AllListed(b, cls[1..]);
    }
  }

  // ---------- which sets can be read back ----------

  lemma {:induction false} ReadableConcat(b: Build, xs: seq<Clause>, ys: seq<Clause>)
    ensures ClausesReadable(b, xs + ys) <==> ClausesReadable(b, xs) && ClausesReadable(b, ys)
    decreases |xs|
  {
    hide AllReadable;
    if xs == [] {
      assert xs + ys == ys;
    } else {
      assert (xs + ys)[1..] == xs[1..] + ys;
      ReadableConcat(b, xs[1..], ys);
    }
  }

  lemma {:induction false} NamedReadable(b: Build, caps: Caps, m: nat, i: nat)
    requires b.maxBits <= |caps|
    ensures ClausesReadable(b, NamedGroups(caps, b.maxBits, m, i))
    decreases i
  {
    if i > 0 {
      hide PatOf, Minus;
      NamedReadable(b, caps, m, i - 1);
      ReadableConcat(b, [], NamedGroups(caps, b.maxBits, m, i - 1));
      var rest := NamedGroups(caps, b.maxBits, m, i - 1);
      assert [] + rest == rest;
      assert forall cl :: ([cl] + rest)[1..] == rest;
    }
  }

  lemma {:induction false} UnnamedReadable(b: Build, caps: Caps, i: nat)
    requires b.maxBits <= |caps| && i <= 8
    ensures ClausesReadable(b, UnnamedGroups(caps, b.maxBits, i)) <==>
      forall v :: b.maxBits <= v < |caps| && 0 < CodeOf(caps[v]) < i ==> Readable(b, v)
    decreases i
  {
    if i > 1 {
      CodeOfPat(i - 1);
      hide PatOf, CodeOf, Readable;
      UnnamedReadable(b, caps, i - 1);
      var rest := UnnamedGroups(caps, b.maxBits, i - 1);
      var vals := Members(caps, PatOf(i - 1), b.maxBits, |caps|);
      assert forall v :: v in vals <==> b.maxBits <= v < |caps| && CodeOf(caps[v]) == i - 1;
      assert forall cl :: ([cl] + rest)[1..] == rest;
      assert [] + rest == rest;
    }
  }

  /** No value is raised whose name this build prints but cannot read. */
  predicate Speakable(b: Build, caps: Caps) {
    b.gperf || forall v :: b.maxBits <= v < |caps| && v < |b.names| ==> caps[v] == LOWERED
  }

  lemma PrintedReadable(b: Build, caps: Caps)
    requires b.maxBits <= |caps|
    ensures ClausesReadable(b, Printed(caps, b.maxBits)) <==> Speakable(b, caps)
  {
    var m := Background(caps, b.maxBits);
    var groups := NamedGroups(caps, b.maxBits, m, 8);
    NamedReadable(b, caps, m, 8);
    UnnamedReadable(b, caps, 8);
    CodeOfPat(0);
    ReadableConcat(b, Opening(m, groups), UnnamedGroups(caps, b.maxBits, 8));
    hide Background, NamedGroups, UnnamedGroups;
    if m == 0 && groups != [] {
      assert Opening(m, groups)[1..] == groups[1..];
    } else {
      assert Opening(m, groups)[1..] == groups;
    }
    assert ClausesReadable(b, Opening(m, groups));
    assert forall v :: 0 <= v < |caps| ==> (CodeOf(caps[v]) == 0 <==> caps[v] == LOWERED);
  }

  /** The C library reads a set's text back as that set, except that a build which searches
      the kernel's names fails on a raised value that has a name beyond them. */
  lemma CRoundTrip(b: Build, caps: Caps)
    requires BuildOk(b) && |caps| == b.bits
    ensures Parsed(b, TextOf(b.names, caps, b.maxBits)) == if Speakable(b, caps) then Some(caps) else None
  {
    var cls := Printed(caps, b.maxBits);
    PrintedShape(caps, b.maxBits);
    PrintedMeansSet(caps, b.maxBits);
    PrintedReadable(b, caps);
    OpeningLowersNothing(caps, b.maxBits);
    hide Printed, Speakable;
    TextPrinted(b, cls);
    var none := Empty(|caps|);
    ListedMeans(b, none, cls[0]);
    hide ReadText, Then, ClauseTexts, Join, ClausesReadable, ApplyAll, ListOf, ActsOf, TableOk, Meaning;
    AllListedMeans(b, Then(none, b.maxBits, cls[0]), cls[1..]);
    assert AllListed(b, cls)[1..] == AllListed(b, cls[1..]);
  }

  lemma OpeningLowersNothing(caps: Caps, named: nat)
    requires named <= |caps|
    ensures Printed(caps, named)[0].down == LOWERED
  {
    var m := Background(caps, named);
    BackgroundIsLeastBest(caps, named);
    NamedGroupsAdd(caps, named, m, 8);
    hide Background, NamedGroups, UnnamedGroups;
  }
}
