/** Forms that the C library reads besides the printed one: names in any case, numerals in three
    bases, and "all" in the midst of a list. */
module CTextForms {
  import opened Words
  import opened CapSet
  import opened Strings
  import opened TextModel
  import opened CText

  // ---------- names in any case ----------

  /** A character of a name, or the upper-case letter for it, by their codes. */
  predicate Matches(c: char, l: char) {
    c == l || ('a' <= l <= 'z' && c as int == l as int - 32)
  }

  predicate Spells(s: string, name: string) {
    |s| == |name| && forall i :: 0 <= i < |s| ==> Matches(s[i], name[i])
  }

  /** Lower-casing moves the twenty-six upper-case letters by 32 and nothing else. */
  lemma LowerCase(c: char)
    ensures ToLower(c) as int == if 65 <= c as int <= 90 then c as int + 32 else c as int
  {
  }

  lemma MatchLowers(c: char, l: char)
    requires Matches(c, l) && IsNameChar(l)
    ensures ToLower(c) == l && IsWordChar(c) && !IsDigit(c) && (IsAlpha(c) || c == '_')
  {
    LowerCase(c);
    hide ToLower;
    if c != l {
      assert 65 <= c as int <= 90;
    }
  }

  /** A name compares the same in any case. */
  lemma {:induction false} CompareAnyCase(s: string, low: string, t: string, name: string)
    requires Spells(s, low) && EndsWord(t)
    requires forall i :: 0 <= i < |low| ==> IsNameChar(low[i])
    ensures NameCompare(s + t, name) == NameCompare(low + t, name)
    decreases |s|
  {
    hide ToLower;
    if s == "" {
      assert s + t == t == low + t;
    } else {
      MatchLowers(s[0], low[0]);
      MatchLowers(low[0], low[0]);
      hide Matches, IsNameChar;
      assert (s + t)[1..] == s[1..] + t && (low + t)[1..] == low[1..] + t;
      if name != "" {
        CompareAnyCase(s[1..], low[1..], t, name[1..]);
      }
    }
  }

  lemma {:induction false} LoweredAnyCase(s: string, low: string)
    requires Spells(s, low) && forall i :: 0 <= i < |low| ==> IsNameChar(low[i])
    ensures Lowered(s) == low
    decreases |s|
  {
    if s != "" {
      MatchLowers(s[0], low[0]);
      LoweredAnyCase(s[1..], low[1..]);
      assert low == [low[0]] + low[1..];
    }
  }

  lemma {:induction false} LettersAnyCase(s: string, low: string, t: string)
    requires Spells(s, low) && EndsWord(t) && forall i :: 0 <= i < |low| ==> IsNameChar(low[i])
    ensures LettersLen(s + t) == |s|
    decreases |s|
  {
    if s == "" {
      assert s + t == t;
    } else {
      MatchLowers(s[0], low[0]);
      assert (s + t)[1..] == s[1..] + t;
      LettersAnyCase(s[1..], low[1..], t);
    }
  }

  lemma {:induction false} SearchAnyCase(names: seq<string>, n: nat, s: string, low: string, t: string)
    requires TableOk(names) && n <= |names| && Spells(s, low) && EndsWord(t)
    requires forall i :: 0 <= i < |low| ==> IsNameChar(low[i])
    ensures Search(names, n, s + t) == Search(names, n, low + t)
    decreases n
  {
    if n > 0 {
      CompareAnyCase(s, low, t, names[n - 1]);
      SearchAnyCase(names, n - 1, s, low, t);
      hide NameCompare, TableOk;
    }
  }

  /** A name is looked up as its value in any case, wherever the lower-case one is. */
  lemma LookupAnyCase(b: Build, v: nat, s: string, t: string)
    requires BuildOk(b) && v < |b.names| && Spells(s, b.names[v]) && EndsWord(t)
    ensures s != "" && IsWordChar((s + t)[0]) && NameCompare(s + t, "all") == None
    ensures LookupName(b, s + t) == if Readable(b, v) then Some((v, t)) else None
  {
    var low := b.names[v];
    assert NameOk(low);
    MatchLowers(s[0], low[0]);
    LookupPrinted(b, v, t);
    CompareAnyCase(s, low, t, "all");
    if b.gperf {
      LoweredAnyCase(s, low);
      LettersAnyCase(s, low, t);
      FindName(b.names, v);
      assert (s + t)[..|s|] == s && (s + t)[|s|..] == t;
    } else {
      SearchAnyCase(b.names, if b.maxBits > |b.names| then |b.names| else b.maxBits, s, low, t);
    }
    hide NameCompare, Search, Find, Lowered, LettersLen, TableOk;
  }

  /** And so it is listed. */
  lemma ListAnyCase(b: Build, v: nat, s: string, t: string, list: set<nat>)
    requires BuildOk(b) && v < |b.names| && Spells(s, b.names[v]) && EndsWord(t)
    ensures s != "" && IsWordChar((s + t)[0]) && b.names[v] != "" && IsWordChar((b.names[v] + t)[0])
    ensures ReadList(b, s + t, list) == ReadList(b, b.names[v] + t, list)
  {
    LookupAnyCase(b, v, s, t);
    SpellsItself(b.names[v]);
    LookupAnyCase(b, v, b.names[v], t);
    hide LookupName, NameCompare, BuildOk, Readable, Spells;
  }

  lemma SpellsItself(s: string)
    ensures Spells(s, s)
  {
  }

  /** A text that begins with a name means the same with that name in any case. */
  lemma TextAnyCase(b: Build, v: nat, s: string, a: string)
    requires BuildOk(b) && v < |b.names| && Spells(s, b.names[v]) && EndsWord(a)
    ensures Parsed(b, s + a) == Parsed(b, b.names[v] + a)
  {
    ListAnyCase(b, v, s, a, {});
    assert !IsSpace((s + a)[0]) && !IsSpace((b.names[v] + a)[0]);
    hide ReadList, Denote, BuildOk, Spells, IsWordChar;
    assert ReadListed(b, s + a) == ReadListed(b, b.names[v] + a);
    hide ReadListed;
    assert ReadClause(b, s + a) == ReadClause(b, b.names[v] + a);
    hide ReadClause;
    assert ReadText(b, s + a) == ReadText(b, b.names[v] + a);
  }

  // ---------- "all" ----------

  /** "all" in any case lists the named values, whatever was listed before. */
  lemma AllListed(b: Build, s: string, t: string, list: set<nat>)
    requires BuildOk(b) && Spells(s, "all") && EndsWord(t) && (t == "" || t[0] != ',')
    ensures s != "" && IsWordChar((s + t)[0])
    ensures ReadList(b, s + t, list) == Some((Below(b.maxBits), t))
  {
    var x := s + t;
    MatchLowers(s[0], 'a');
    MatchLowers(s[1], 'l');
    MatchLowers(s[2], 'l');
    hide ToLower;
    assert x[1..][1..][1..] == t && x[3..] == t && x[1..][0] == s[1] && x[1..][1..][0] == s[2];
    assert "all"[1..] == "ll" && "ll"[1..] == "l" && "l"[1..] == "";
    assert NameCompare(t, "") == Some(t);
    assert NameCompare(x[1..][1..], "l") == Some(t);
    assert NameCompare(x[1..], "ll") == Some(t);
    assert NameCompare(x, "all") == Some(t);
    hide NameCompare, LookupName, Below;
  }

  /** A list goes on after a comma with what it has so far. */
  lemma {:induction false} ListGoesOn(b: Build, vals: seq<nat>, u: string, list: set<nat>)
    requires BuildOk(b) && vals != [] && u != "" && IsWordChar(u[0])
    requires forall v :: v in vals ==> v < b.bits
    ensures var s := Join(NamesOf(b.names, vals), ',') + ("," + u);
      && s != "" && IsWordChar(s[0])
      && ReadList(b, s, list) == if AllReadable(b, vals) then ReadList(b, u, list + SetOf(vals)) else None
    decreases |vals|
  {
    var v, rest := vals[0], vals[1..];
    ListFromFirst(b, vals, "," + u);
    SetFromFirst(b, vals, list);
    var w := Join(NamesOf(b.names, rest), ',') + ("," + u);
    hide *;
    OneListed(b, v, if rest == [] then "," + u else "," + w, list);
    if rest == [] {
      assert ("," + u)[1..] == u;
    } else {
      ListGoesOn(b, rest, u, list + {v});
      assert ("," + w)[1..] == w;
    }
  }

  /** So "all" in the midst of a list forgets what stands before it, and keeps what follows. */
  lemma AllForgets(b: Build, vals: seq<nat>, t: string)
    requires BuildOk(b) && vals != [] && EndsWord(t) && (t == "" || t[0] != ',')
    requires AllReadable(b, vals) && forall v :: v in vals ==> v < b.bits
    ensures var s := Join(NamesOf(b.names, vals), ',') + ("," + ("all" + t));
      s != "" && IsWordChar(s[0]) && ReadList(b, s, {}) == Some((Below(b.maxBits), t))
  {
    SpellsItself("all");
    AllListed(b, "all", t, {} + SetOf(vals));
    ListGoesOn(b, vals, "all" + t, {});
    hide *;
  }

  // ---------- numerals ----------

  /** A digit by its place among the sixteen, in either case. */
  predicate IsDigitOf(c: char, d: nat) {
    d < 16 && (c == "0123456789abcdef"[d] || c == "0123456789ABCDEF"[d])
  }

  predicate Numeral(s: string, ds: seq<nat>, base: nat) {
    |s| == |ds| && forall i :: 0 <= i < |s| ==> ds[i] < base && IsDigitOf(s[i], ds[i])
  }

  /** The number with the given digits, the last one counting one. */
  function Amount(ds: seq<nat>, base: nat): nat {
    if ds == [] then 0 else base * Amount(ds[..|ds| - 1], base) + ds[|ds| - 1]
  }

  function Onward(acc: nat, ds: seq<nat>, base: nat): nat
    decreases |ds|
  {
    if ds == [] then acc else Onward(base * acc + ds[0], ds[1..], base)
  }

  lemma {:induction false} OnwardLast(acc: nat, ds: seq<nat>, base: nat)
    requires ds != []
    ensures Onward(acc, ds, base) == base * Onward(acc, ds[..|ds| - 1], base) + ds[|ds| - 1]
    decreases |ds|
  {
    if |ds| > 1 {
      OnwardLast(base * acc + ds[0], ds[1..], base);
      assert ds[1..][..|ds| - 2] == ds[..|ds| - 1][1..];
    }
  }

  lemma {:induction false} OnwardAmount(ds: seq<nat>, base: nat)
    ensures Onward(0, ds, base) == Amount(ds, base)
    decreases |ds|
  {
    if ds != [] {
      OnwardLast(0, ds, base);
      OnwardAmount(ds[..|ds| - 1], base);
    }
  }

  lemma DigitValue(c: char, d: nat)
    requires IsDigitOf(c, d)
    ensures ValueOfDigit(c) == d && c != 'x' && c != 'X' && IsWordChar(c)
  {
  }

  lemma NoDigit(t: string)
    requires EndsWord(t) && t != ""
    ensures ValueOfDigit(t[0]) == 16 && t[0] != 'x' && t[0] != 'X'
  {
  }

  lemma {:induction false} DigitsRead(s: string, ds: seq<nat>, base: nat, t: string, acc: nat)
    requires Numeral(s, ds, base) && base <= 16 && EndsWord(t)
    ensures Digits(s + t, base, acc) == (Onward(acc, ds, base), t)
    decreases |s|
  {
    hide IsDigitOf, ValueOfDigit, IsWordChar;
    if s == "" {
      assert s + t == t;
      if t != "" {
        NoDigit(t);
      }
    } else {
      DigitValue(s[0], ds[0]);
      assert (s + t)[1..] == s[1..] + t && (s + t)[0] == s[0];
      DigitsRead(s[1..], ds[1..], base, t, base * acc + ds[0]);
    }
  }

  /** A numeral after "0x" or "0X" is read in base 16, one after "0" in base 8, and one that
      begins with another digit in base 10. */
  lemma NumeralsRead(s: string, ds: seq<nat>, t: string)
    requires EndsWord(t)
    ensures Numeral(s, ds, 16) && s != "" ==>
      ReadNumber("0x" + s + t) == (Amount(ds, 16), t) && ReadNumber("0X" + s + t) == (Amount(ds, 16), t)
    ensures Numeral(s, ds, 8) ==> ReadNumber("0" + s + t) == (Amount(ds, 8), t)
    ensures Numeral(s, ds, 10) && s != "" && ds[0] != 0 ==> IsDigit((s + t)[0]) && ReadNumber(s + t) == (Amount(ds, 10), t)
  {
    if Numeral(s, ds, 16) && s != "" {
      HexRead(s, ds, t, 'x');
      HexRead(s, ds, t, 'X');
      assert "0x" + s + t == ['0', 'x'] + (s + t) && "0X" + s + t == ['0', 'X'] + (s + t);
    }
    if Numeral(s, ds, 8) {
      OctRead(s, ds, t);
    }
    if Numeral(s, ds, 10) && s != "" && ds[0] != 0 {
      DecRead(s, ds, t);
    }
  }

  lemma HexRead(s: string, ds: seq<nat>, t: string, x: char)
    requires Numeral(s, ds, 16) && s != "" && EndsWord(t) && (x == 'x' || x == 'X')
    ensures ReadNumber(['0', x] + (s + t)) == (Amount(ds, 16), t)
  {
    var u := ['0', x] + (s + t);
    DigitValue(s[0], ds[0]);
    DigitsRead(s, ds, 16, t, 0);
    OnwardAmount(ds, 16);
    hide IsDigitOf, ValueOfDigit, Digits, Onward, Amount;
    assert u[2..] == s + t && u[2] == s[0];
  }

  lemma OctRead(s: string, ds: seq<nat>, t: string)
    requires Numeral(s, ds, 8) && EndsWord(t)
    ensures ReadNumber("0" + s + t) == (Amount(ds, 8), t)
  {
    var u := "0" + s + t;
    if s != "" {
      DigitValue(s[0], ds[0]);
    } else if t != "" {
      NoDigit(t);
    }
    DigitsRead(s, ds, 8, t, 0);
    OnwardAmount(ds, 8);
    hide IsDigitOf, Onward, Amount;
    assert u[1..] == s + t;
    assert Digits(u, 8, 0) == Digits(u[1..], 8, 0);
    hide Digits, ValueOfDigit;
  }

  lemma DecRead(s: string, ds: seq<nat>, t: string)
    requires Numeral(s, ds, 10) && s != "" && ds[0] != 0 && EndsWord(t)
    ensures IsDigit((s + t)[0]) && ReadNumber(s + t) == (Amount(ds, 10), t)
  {
    assert '0' < s[0] <= '9' && (s + t)[0] == s[0];
    DigitsRead(s, ds, 10, t, 0);
    OnwardAmount(ds, 10);
    hide IsDigitOf, Digits, Onward, Amount;
  }
}
