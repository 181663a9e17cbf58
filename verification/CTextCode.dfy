/** The C parser as it runs: a cursor over the text, a list of values in words, and a set
    changed letter by letter. */
module CTextCode {
  import opened Bits
  import opened Words
  import opened CapSet
  import opened Strings
  import opened TextModel
  import opened CText

  // ---------- the set ----------

  /** The set in which one flag of every listed value is set to `enable`. */
  function WithBits(caps: Caps, list: Vector, f: Flag, enable: bool): Caps {
    seq(|caps|, v requires 0 <= v < |caps| => if Has(list, v) then caps[v].Put(f, enable) else caps[v])
  }

  class CapT {
    var u: Flat

    function View(): Caps
      reads this
    {
      ViewOf(u)
    }

    constructor (blks: nat)
      ensures |u| == blks && View() == Empty(32 * blks)
    {
      u := seq(blks, _ => BLANK);
      new;
      BlankView(u);
    }

    method SetBits(list: Vector, vec: Flag)
      requires |list| == |u|
      modifies this
      ensures |u| == |old(u)| && View() == WithBits(old(View()), list, vec, true)
    {
      ghost var was := u;
      var n := |u|;
      while n > 0
        invariant 0 <= n <= |u| == |was|
        invariant forall j :: 0 <= j < n ==> u[j] == was[j]
        invariant forall j :: n <= j < |u| ==> u[j] == was[j].Put(vec, OrWord(was[j].Get(vec), list[j]))
      {
        n := n - 1;
        u := u[n := u[n].Put(vec, OrWord(u[n].Get(vec), list[n]))];
      }
      SetView(was, u, list, vec);
    }

    method ClrBits(list: Vector, vec: Flag)
      requires |list| == |u|
      modifies this
      ensures |u| == |old(u)| && View() == WithBits(old(View()), list, vec, false)
    {
      ghost var was := u;
      var n := |u|;
      while n > 0
        invariant 0 <= n <= |u| == |was|
        invariant forall j :: 0 <= j < n ==> u[j] == was[j]
        invariant forall j :: n <= j < |u| ==> u[j] == was[j].Put(vec, AndWord(was[j].Get(vec), NotWord(list[j])))
      {
        n := n - 1;
        u := u[n := u[n].Put(vec, AndWord(u[n].Get(vec), NotWord(list[n])))];
      }
      ClrView(was, u, list, vec);
    }

    /** One operator with the letters read for it so far. */
    method Run(list: Vector, op: char, flags: Pat)
      requires |list| == |u| && IsAct(op)
      modifies this
      ensures |u| == |old(u)| && View() == Apply(old(View()), Listing(list), Action(op, flags))
    {
      ghost var was := View();
      RunIsApply(was, list, op, flags);
      hide *;
      if op == '=' || op == 'P' || op == 'M' {
        ClrBits(list, Effective);
        ClrBits(list, Permitted);
        ClrBits(list, Inheritable);
      }
      if op == 'M' || op == '-' {
        if flags.e {
          ClrBits(list, Effective);
        }
        if flags.p {
          ClrBits(list, Permitted);
        }
        if flags.i {
          ClrBits(list, Inheritable);
        }
      } else {
        if flags.e {
          SetBits(list, Effective);
        }
        if flags.p {
          SetBits(list, Permitted);
        }
        if flags.i {
          SetBits(list, Inheritable);
        }
      }
    }
  }

  lemma SetView(was: Flat, u: Flat, list: Vector, f: Flag)
    requires |list| == |u| == |was|
    requires forall j :: 0 <= j < |u| ==> u[j] == was[j].Put(f, OrWord(was[j].Get(f), list[j]))
    ensures ViewOf(u) == WithBits(ViewOf(was), list, f, true)
  {
    hide Bit, Or;
    forall v | 0 <= v < 32 * |u|
      ensures PatAt(u, v) == if Has(list, v) then PatAt(was, v).Put(f, true) else PatAt(was, v)
    {
      BitOr(was[v / 32].Get(f), list[v / 32], v % 32);
    }
  }

  lemma ClrView(was: Flat, u: Flat, list: Vector, f: Flag)
    requires |list| == |u| == |was|
    requires forall j :: 0 <= j < |u| ==> u[j] == was[j].Put(f, AndWord(was[j].Get(f), NotWord(list[j])))
    ensures ViewOf(u) == WithBits(ViewOf(was), list, f, false)
  {
    hide Bit, And, NotWord;
    forall v | 0 <= v < 32 * |u|
      ensures PatAt(u, v) == if Has(list, v) then PatAt(was, v).Put(f, false) else PatAt(was, v)
    {
      BitAnd(was[v / 32].Get(f), NotWord(list[v / 32]), v % 32);
      BitNot(list[v / 32], v % 32);
    }
  }

  /** The word operations of one action, in the order in which they run. */
  function Ran(caps: Caps, list: Vector, op: char, fl: Pat): Caps {
    var c0 :=
      if op == '=' || op == 'P' || op == 'M' then
        WithBits(WithBits(WithBits(caps, list, Effective, false), list, Permitted, false), list, Inheritable, false)
      else caps;
    var enable := op != 'M' && op != '-';
    var c1 := if fl.e then WithBits(c0, list, Effective, enable) else c0;
    var c2 := if fl.p then WithBits(c1, list, Permitted, enable) else c1;
    if fl.i then WithBits(c2, list, Inheritable, enable) else c2
  }

  lemma RunIsApply(caps: Caps, list: Vector, op: char, fl: Pat)
    requires IsAct(op)
    ensures Ran(caps, list, op, fl) == Apply(caps, Listing(list), Action(op, fl))
  {
    hide Has;
    HasInRange(list);
    forall v | 0 <= v < |caps|
      ensures Ran(caps, list, op, fl)[v] == Apply(caps, Listing(list), Action(op, fl))[v]
    {
      assert v in Listing(list) <==> Has(list, v);
    }
  }

  // ---------- lists ----------

  /** Overwrite a list with the masked value for each named capability. */
  method ForceAll(value: Word, blks: nat, maxBits: nat) returns (flat: Vector)
    ensures |flat| == blks
    ensures value == ALL && maxBits <= 32 * blks ==> Listing(flat) == Below(maxBits)
  {
    flat := seq(blks, _ => 0);
    var n := blks;
    while n > 0
      invariant 0 <= n <= blks == |flat|
      invariant forall j :: n <= j < blks ==> flat[j] == AndWord(value, AllMask(j, maxBits))
    {
      n := n - 1;
      flat := flat[n := AndWord(value, AllMask(n, maxBits))];
    }
    if value == ALL && maxBits <= 32 * blks {
      ForcedListing(flat, maxBits);
    }
  }

  lemma ForcedListing(flat: Vector, maxBits: nat)
    requires forall j :: 0 <= j < |flat| ==> flat[j] == AndWord(ALL, AllMask(j, maxBits))
    requires maxBits <= 32 * |flat|
    ensures Listing(flat) == Below(maxBits)
  {
    hide Bit, And, AllMask;
    forall v: nat
      ensures v in Listing(flat) <==> v in Below(maxBits)
    {
      if v < 32 * |flat| {
        BitAnd(ALL, AllMask(v / 32, maxBits), v % 32);
        BitAllMask(v / 32, maxBits, v % 32);
        BitOfAll(v % 32);
      }
    }
  }

  // ---------- the cursor ----------

  /** The character at the cursor, or the terminator. */
  function Peek(str: string, i: nat): char {
    if i < |str| then str[i] else '\0'
  }

  /** Where a name ends, when it starts at the cursor. */
  method NamCmp(str: string, start: nat, nam: string) returns (r: Option<nat>)
    requires start <= |str| && forall k :: 0 <= k < |nam| ==> IsNameChar(nam[k])
    ensures r.None? <==> NameCompare(str[start..], nam).None?
    ensures r.Some? ==> start <= r.value <= |str| && NameCompare(str[start..], nam) == Some(str[r.value..])
    ensures r.Some? ==> r.value == start + |nam|
  {
    var i, k := start, 0;
    assert nam[0..] == nam;
    while k < |nam| && ToLower(Peek(str, i)) == nam[k]
      invariant k <= |nam| && i == start + k <= |str|
      invariant NameCompare(str[start..], nam) == NameCompare(str[i..], nam[k..])
    {
      assert str[i..][1..] == str[i + 1..] && nam[k..][1..] == nam[k + 1..];
      i, k := i + 1, k + 1;
    }
    if k < |nam| || IsWordChar(Peek(str, i)) {
      return None;
    }
    return Some(i);
  }

  /** The length of the run of letters at the cursor. */
  method LettersAt(str: string, start: nat) returns (len: nat)
    requires start <= |str|
    ensures len == LettersLen(str[start..])
  {
    len := 0;
    while IsAlpha(Peek(str, start + len)) || Peek(str, start + len) == '_'
      invariant start + len <= |str|
      invariant LettersLen(str[start..]) == len + LettersLen(str[start + len..])
      decreases |str| - len
    {
      assert str[start + len..][1..] == str[start + (len + 1)..];
      len := len + 1;
    }
  }

  /** The search of the known names, last name first. */
  method SearchNames(names: seq<string>, maxBits: nat, str: string, start: nat) returns (r: Option<(nat, nat)>)
    requires TableOk(names) && start < |str|
    ensures var s := Search(names, if maxBits > |names| then |names| else maxBits, str[start..]);
      && (r.None? <==> s.None?)
      && (r.Some? ==> start < r.value.1 <= |str| && s == Some((r.value.0, str[r.value.1..])))
  {
    var n := if maxBits > |names| then |names| else maxBits;
    ghost var all := n;
    hide NameCompare;
    while n > 0
      invariant 0 <= n <= |names|
      invariant Search(names, all, str[start..]) == Search(names, n, str[start..])
    {
      n := n - 1;
      assert NameOk(names[n]);
      var end := NamCmp(str, start, names[n]);
      if end.Some? {
        return Some((n, end.value));
      }
    }
    return None;
  }

  /** The value named or numbered at the cursor, and where it ends. */
  method Lookup(b: Build, str: string, start: nat) returns (r: Option<(nat, nat)>)
    requires BuildOk(b) && start < |str| && IsWordChar(str[start])
    ensures r.None? <==> LookupName(b, str[start..]).None?
    ensures r.Some? ==> start < r.value.1 <= |str| && LookupName(b, str[start..]) == Some((r.value.0, str[r.value.1..]))
  {
    hide Search, ReadNumber, LettersLen, TableOk;
    if IsDigit(str[start]) {
      var (n, rest) := ReadNumber(str[start..]);
      NumberSuffix(str[start..]);
      return if n >= b.bits then None else Some((n, |str| - |rest|));
    }
    if b.gperf {
      var len := LettersAt(str, start);
      var word := str[start..][..len];
      match Find(b.names, Lowered(word)) {
        case Some(v) =>
          assert str[start..][len..] == str[start + len..];
          return Some((v, start + len));
        case None => return None;
      }
    }
    r := SearchNames(b.names, b.maxBits, str, start);
  }

  lemma {:induction false} DigitsSuffix(s: string, base: nat, acc: nat)
    ensures Digits(s, base, acc).1 == s[|s| - |Digits(s, base, acc).1|..]
  {
    if s != "" && ValueOfDigit(s[0]) < base {
      DigitsSuffix(s[1..], base, base * acc + ValueOfDigit(s[0]));
    }
  }

  lemma NumberSuffix(s: string)
    requires s != "" && IsDigit(s[0])
    ensures ReadNumber(s).1 == s[|s| - |ReadNumber(s).1|..]
  {
    hide Digits;
    DigitsSuffix(s, 10, 0);
    DigitsSuffix(s, 8, 0);
    if 2 < |s| {
      DigitsSuffix(s[2..], 16, 0);
    }
  }

  // ---------- clauses ----------

  /** The values listed at the cursor; "all" overwrites the list. */
  method ParseList(b: Build, blks: nat, str: string, start: nat) returns (r: Option<(Vector, nat)>)
    requires BuildOk(b) && b.bits == 32 * blks && start < |str| && IsWordChar(str[start])
    ensures r.None? <==> ReadList(b, str[start..], {}).None?
    ensures r.Some? ==>
      && start < r.value.1 <= |str| && |r.value.0| == blks
      && ReadList(b, str[start..], {}) == Some((Listing(r.value.0), str[r.value.1..]))
  {
    hide LookupName, NameCompare, TableOk, Has;
    NothingListed(blks);
    var i, list: Vector := start, seq(blks, _ => 0);
    while true
      invariant start <= i < |str| && IsWordChar(str[i]) && |list| == blks
      invariant ReadList(b, str[start..], {}) == ReadList(b, str[i..], Listing(list))
      decreases |str| - i
    {
      var item := ListItem(b, str, i, list);
      if item.None? {
        return None;
      }
      var j := item.value.1;
      assert j < |str| ==> str[j..][1..] == str[j + 1..];
      list := item.value.0;
      if Peek(str, j) != ',' {
        return Some((list, j));
      }
      i := j + 1;
      if !IsWordChar(Peek(str, i)) {
        return None;
      }
    }
  }

  function Item(b: Build, s: string, list: set<nat>): Option<(set<nat>, string)>
    requires BuildOk(b) && s != "" && IsWordChar(s[0])
  {
    if NameCompare(s, "all").Some? then Some((Below(b.maxBits), s[3..]))
    else match LookupName(b, s) case None => None case Some(r) => Some((list + {r.0}, r.1))
  }

  /** One more value, or all of them. */
  method ListItem(b: Build, str: string, i: nat, list: Vector) returns (r: Option<(Vector, nat)>)
    requires BuildOk(b) && b.bits == 32 * |list| && i < |str| && IsWordChar(str[i])
    ensures r.None? <==> Item(b, str[i..], Listing(list)).None?
    ensures r.Some? ==>
      && i < r.value.1 <= |str| && |r.value.0| == |list|
      && Item(b, str[i..], Listing(list)) == Some((Listing(r.value.0), str[r.value.1..]))
  {
    hide LookupName, NameCompare, TableOk, Has;
    AllIsName();
    var end := NamCmp(str, i, "all");
    if end.Some? {
      var forced := ForceAll(ALL, |list|, b.maxBits);
      return Some((forced, i + 3));
    }
    var found := Lookup(b, str, i);
    if found.None? {
      return None;
    }
    LookupInRange(b, str[i..]);
    ListingRaise(list, found.value.0);
    RaiseLength(list, found.value.0);
    return Some((Raise(list, found.value.0), found.value.1));
  }

  lemma AllIsName()
    ensures forall k :: 0 <= k < 3 ==> IsNameChar("all"[k])
  {
  }

  lemma LookupInRange(b: Build, s: string)
    requires BuildOk(b) && s != "" && IsWordChar(s[0]) && LookupName(b, s).Some?
    requires |b.names| <= b.bits
    ensures LookupName(b, s).value.0 < b.bits
  {
    if !IsDigit(s[0]) && !b.gperf {
      SearchInRange(b.names, if b.maxBits > |b.names| then |b.names| else b.maxBits, s);
    }
  }

  lemma {:induction false} SearchInRange(names: seq<string>, n: nat, s: string)
    requires TableOk(names) && n <= |names| && Search(names, n, s).Some?
    ensures Search(names, n, s).value.0 < n
  {
    if n > 0 && NameCompare(s, names[n - 1]).None? {
      SearchInRange(names, n - 1, s);
    }
  }

  /** The actions that remain when some letters of the current operator are already read. */
  function ReadOn(listed: bool, op: char, f: Pat, s: string): Option<(seq<Action>, string)> {
    var (fl, rest) := ReadFlags(s);
    var all := Plus(f, fl);
    if all == LOWERED then
      if op == '=' && AtEnd(rest) then Some(([Action(op, all)], rest)) else None
    else if AtEnd(rest) then Some(([Action(op, all)], rest))
    else if listed && (rest[0] == '+' || rest[0] == '-') then
      match ReadActs(listed, rest[0], rest[1..])
      case None => None
      case Some((acts, t)) => Some(([Action(op, all)] + acts, t))
    else None
  }

  function After(done: seq<Action>, r: Option<(seq<Action>, string)>): Option<(seq<Action>, string)> {
    match r
    case None => None
    case Some((acts, t)) => Some((done + acts, t))
  }

  /** What the letters read so far have made of a set. */
  function SoFar(caps: Caps, list: set<nat>, op: char, flags: Pat): Caps {
    if flags == LOWERED then caps else Apply(caps, list, Action(op, flags))
  }

  /** The actions at the cursor: the operator is run again after each of its letters. */
  method ParseActions(c: CapT, list: Vector, listed: bool, firstOp: char, str: string, start: nat) returns (r: Option<nat>)
    requires |list| == |c.u| && IsAct(firstOp) && start <= |str|
    modifies c
    ensures |c.u| == old(|c.u|)
    ensures r.None? <==> ReadActs(listed, firstOp, str[start..]).None?
    ensures r.Some? ==>
      && start <= r.value <= |str|
      && ReadActs(listed, firstOp, str[start..]).value.1 == str[r.value..]
      && c.View() == ApplyAll(old(c.View()), Listing(list), ReadActs(listed, firstOp, str[start..]).value.0)
  {
    ghost var was := c.View();
    ghost var total := ReadActs(listed, firstOp, str[start..]);
    ghost var done: seq<Action> := [];
    var op, flags, i := firstOp, LOWERED, start;
    StartActs(listed, op, str[start..]);
    while true
      invariant start <= i <= |str| && |c.u| == |list| && IsAct(op)
      invariant total == After(done, ReadOn(listed, op, flags, str[i..]))
      invariant c.View() == SoFar(ApplyAll(was, Listing(list), done), Listing(list), op, flags)
      invariant flags != LOWERED ==> !EndsAt(str, i) && str[i] != '+' && str[i] != '-'
      decreases |str| - i
    {
      hide ViewOf, ReadOn, ReadActs, Listing, ApplyAll, Apply, SoFar, After, Plus;
      ghost var base := ApplyAll(was, Listing(list), done);
      ghost var before := flags;
      var ok: bool;
      ok, flags, i := ReadLetter(str, i, listed, op, flags);
      if !ok {
        return None;
      }
      c.Run(list, op, flags);
      RunAgain(base, Listing(list), op, before, flags);
      DoneOne(was, Listing(list), done, Action(op, flags));
      ghost var act := Action(op, flags);
      var moved: bool;
      ok, moved, op, i := NextOp(str, i, listed, op, flags, done);
      if !ok {
        return None;
      }
      if moved {
        flags := LOWERED;
        done := done + [act];
        SoFarNone(was, list, done, op);
      }
      if EndsAt(str, i) {
        OpDone(listed, op, flags, str, i, done);
        return Some(i);
      }
    }
  }

  /** A further operator, which needs a list and a letter after it. */
  method NextOp(str: string, start: nat, listed: bool, was: char, flags: Pat, ghost done: seq<Action>)
    returns (ok: bool, moved: bool, op: char, i: nat)
    requires start <= |str| && IsAct(was) && (flags == LOWERED ==> was == '=' && EndsAt(str, start))
    ensures !ok ==> After(done, ReadOn(listed, was, flags, str[start..])) == None
    ensures ok && !moved ==> i == start && op == was && (start < |str| ==> str[i] != '+' && str[i] != '-')
    ensures ok && moved ==>
      && start < i < |str| && IsAct(op) && !EndsAt(str, i)
      && After(done, ReadOn(listed, was, flags, str[start..]))
        == After(done + [Action(was, flags)], ReadOn(listed, op, LOWERED, str[i..]))
  {
    hide ReadOn, ReadActs, After;
    op, i := was, start;
    if Peek(str, i) != '+' && Peek(str, i) != '-' {
      return true, false, op, i;
    }
    OpDone(listed, was, flags, str, i, done);
    if !listed {
      return false, false, op, i;
    }
    op := Peek(str, i);
    i := i + 1;
    StartActs(listed, op, str[i..]);
    if !IsAlpha(Peek(str, i)) {
      OpDone(listed, op, LOWERED, str, i, done + [Action(was, flags)]);
      return false, false, op, i;
    }
    return true, true, op, i;
  }

  /** The next letter, or nothing more when the text ends after '='. */
  method ReadLetter(str: string, start: nat, ghost listed: bool, op: char, f: Pat) returns (ok: bool, flags: Pat, i: nat)
    requires start <= |str|
    requires f != LOWERED ==> !EndsAt(str, start) && str[start] != '+' && str[start] != '-'
    ensures !ok ==> ReadOn(listed, op, f, str[start..]) == None
    ensures ok ==>
      && start <= i <= |str|
      && ReadOn(listed, op, f, str[start..]) == ReadOn(listed, op, flags, str[i..])
      && flags == Plus(f, flags)
      && (flags == LOWERED ==> op == '=' && EndsAt(str, i)) && (flags != LOWERED ==> start < i)
  {
    flags, i := f, start;
    if !EndsAt(str, i) {
      if !IsFlag(str[i]) {
        OpDone(listed, op, f, str, i, []);
        return false, f, i;
      }
      OneLetter(listed, op, f, str, i);
      return true, Plus(f, FlagOf(str[i])), i + 1;
    } else if op != '=' {
      OpDone(listed, op, f, str, i, []);
      return false, f, i;
    }
    return true, f, i;
  }

  predicate EndsAt(str: string, i: nat) {
    i >= |str| || IsSpace(str[i])
  }

  lemma StartActs(listed: bool, op: char, s: string)
    ensures ReadOn(listed, op, LOWERED, s) == ReadActs(listed, op, s)
    ensures ReadOn(listed, op, LOWERED, s) == After([], ReadOn(listed, op, LOWERED, s))
  {
    hide ReadFlags;
    assert forall acts: seq<Action> :: [] + acts == acts;
    assert forall p :: Plus(LOWERED, p) == p;
  }

  lemma SoFarNone(was: Caps, list: Vector, done: seq<Action>, op: char)
    ensures SoFar(ApplyAll(was, Listing(list), done), Listing(list), op, LOWERED) == ApplyAll(was, Listing(list), done)
  {
  }

  lemma OneLetter(listed: bool, op: char, f: Pat, str: string, i: nat)
    requires i < |str| && IsFlag(str[i])
    ensures ReadOn(listed, op, f, str[i..]) == ReadOn(listed, op, Plus(f, FlagOf(str[i])), str[i + 1..])
    ensures Plus(f, FlagOf(str[i])) != LOWERED
  {
    assert str[i..][1..] == str[i + 1..];
  }

  /** What remains to be read once an operator has all its letters. */
  lemma OpDone(listed: bool, op: char, f: Pat, str: string, i: nat, done: seq<Action>)
    requires i <= |str| && (i == |str| || !IsFlag(str[i]))
    ensures
      var act := Action(op, f);
      After(done, ReadOn(listed, op, f, str[i..])) ==
        if f == LOWERED && (op != '=' || !EndsAt(str, i)) then None
        else if EndsAt(str, i) then Some((done + [act], str[i..]))
        else if listed && (str[i] == '+' || str[i] == '-') then After(done + [act], ReadActs(listed, str[i], str[i + 1..]))
        else None
  {
    var s, act := str[i..], Action(op, f);
    assert ReadFlags(s) == (LOWERED, s) && Plus(f, LOWERED) == f;
    assert i < |str| ==> s[1..] == str[i + 1..];
    hide ReadFlags, ReadActs;
    forall acts: seq<Action>
      ensures done + ([act] + acts) == done + [act] + acts
    {
    }
  }

  /** Running an operator again with one more letter is running it once with all of them. */
  lemma RunAgain(base: Caps, list: set<nat>, op: char, before: Pat, flags: Pat)
    requires flags == Plus(before, flags)
    ensures Apply(SoFar(base, list, op, before), list, Action(op, flags)) == Apply(base, list, Action(op, flags))
    ensures flags != LOWERED ==> SoFar(base, list, op, flags) == Apply(base, list, Action(op, flags))
  {
    if before != LOWERED {
      ApplyAgain(base, list, op, before, flags);
    }
  }

  lemma {:induction false} DoneOne(caps: Caps, list: set<nat>, done: seq<Action>, act: Action)
    ensures ApplyAll(caps, list, done + [act]) == Apply(ApplyAll(caps, list, done), list, act)
    decreases |done|
  {
    hide Apply;
    if done == [] {
      assert [] + [act] == [act];
      assert ApplyAll(caps, list, [act]) == ApplyAll(Apply(caps, list, act), list, []);
    } else {
      assert (done + [act])[1..] == done[1..] + [act];
      DoneOne(Apply(caps, list, done[0]), list, done[1..], act);
    }
  }

  function RunListed(caps: Caps, cl: Listed): Caps {
    ApplyAll(caps, cl.list, cl.acts)
  }

  /** One clause at the cursor, applied to the set. */
  method ParseClause(b: Build, blks: nat, c: CapT, str: string, start: nat) returns (r: Option<nat>)
    requires BuildOk(b) && b.bits == 32 * blks && |c.u| == blks
    requires start < |str| && !IsSpace(str[start])
    modifies c
    ensures |c.u| == blks
    ensures r.None? <==> ReadClause(b, str[start..]).None?
    ensures r.Some? ==>
      && start < r.value <= |str|
      && ReadClause(b, str[start..]).value.1 == str[r.value..]
      && c.View() == RunListed(old(c.View()), ReadClause(b, str[start..]).value.0)
  {
    ghost var s := str[start..];
    var i := start;
    var list: Vector := [];
    var listed := IsWordChar(str[start]);
    hide ReadList, ReadActs, TableOk, Below, Listing, ApplyAll, ViewOf;
    if listed {
      var read := ParseList(b, blks, str, start);
      if read.None? {
        return None;
      }
      list, i := read.value.0, read.value.1;
    } else if str[start] == '+' || str[start] == '-' {
      return None;
    } else {
      list := ForceAll(ALL, blks, b.maxBits);
    }
    ghost var t := str[i..];
    assert i < |str| ==> t[1..] == str[i + 1..];
    assert i + 1 < |str| ==> t[2..] == str[i + 2..];
    assert ReadListed(b, s) == Some((Listing(list), t));
    var op := Peek(str, i);
    i := i + 1;
    if op == '=' && (Peek(str, i) == '+' || Peek(str, i) == '-') {
      if !listed {
        return None;
      }
      op := if Peek(str, i) == '+' then 'P' else 'M';
      i := i + 1;
    } else if op != '+' && op != '-' && op != '=' {
      return None;
    }
    assert ReadOp(listed, t) == Some((op, str[i..]));
    r := ParseActions(c, list, listed, op, str, i);
  }

  /** A new set for the text, or nothing when the text is bad. */
  method FromText(b: Build, blks: nat, str: string) returns (res: CapT, ok: bool)
    requires BuildOk(b) && b.bits == 32 * blks
    ensures fresh(res) && |res.u| == blks
    ensures ok <==> Parsed(b, str).Some?
    ensures ok ==> Parsed(b, str) == Some(res.View())
  {
    res := new CapT(blks);
    var i := 0;
    assert str[0..] == str;
    hide ViewOf, ReadClause, TableOk, Denote, ApplyAll;
    while true
      invariant i <= |str| && |res.u| == blks && fresh(res)
      invariant Parsed(b, str) == From(b, res.View(), str[i..])
      decreases |str| - i
    {
      while i < |str| && IsSpace(str[i])
        invariant i <= |str|
        invariant Parsed(b, str) == From(b, res.View(), str[i..])
      {
        assert str[i..][1..] == str[i + 1..];
        i := i + 1;
      }
      ghost var caps := res.View();
      NextClause(b, caps, str[i..]);
      if i >= |str| {
        return res, true;
      }
      var next := ParseClause(b, blks, res, str, i);
      if next.None? {
        return res, false;
      }
      i := next.value;
    }
  }

  /** The rest of a text, over the set that the clauses so far have built. */
  ghost function From(b: Build, caps: Caps, s: string): Option<Caps>
    requires BuildOk(b)
  {
    match ReadText(b, s)
    case None => None
    case Some(cls) => Some(Denote(caps, cls))
  }

  lemma NextClause(b: Build, caps: Caps, s: string)
    requires BuildOk(b) && (s == "" || !IsSpace(s[0]))
    ensures From(b, caps, s) ==
      if s == "" then Some(caps)
      else
        match ReadClause(b, s)
        case None => None
        case Some((cl, rest)) => From(b, RunListed(caps, cl), rest)
  {
    hide ReadClause, ApplyAll, TableOk;
    if s != "" && ReadClause(b, s).Some? {
      var (cl, rest) := ReadClause(b, s).value;
      if ReadText(b, rest).Some? {
        assert ([cl] + ReadText(b, rest).value)[1..] == ReadText(b, rest).value;
      }
    }
  }
}
