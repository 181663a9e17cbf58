/** Text helpers shared by the two capability text formats. */
module Strings {

  datatype Option<+T> = None | Some(value: T)

  // ---------- lists of words ----------

  function Join(ss: seq<string>, sep: char): string {
    if ss == [] then ""
    else if |ss| == 1 then ss[0]
    else ss[0] + [sep] + Join(ss[1..], sep)
  }

  /** The length of the longest prefix without `sep`. */
  function UpTo(s: string, sep: char): (n: nat)
    ensures n <= |s| && (n < |s| ==> s[n] == sep)
    ensures forall i :: 0 <= i < n ==> s[i] != sep
  {
    if s == "" || s[0] == sep then 0 else 1 + UpTo(s[1..], sep)
  }

  /** The pieces between separators; the empty string is one empty piece. */
  function Split(s: string, sep: char): (ss: seq<string>)
    ensures ss != []
    decreases |s|
  {
    var n := UpTo(s, sep);
    if n == |s| then [s] else [s[..n]] + Split(s[n + 1..], sep)
  }

  lemma {:induction false} UpToPrefix(s: string, t: string, sep: char)
    requires sep !in s
    ensures UpTo(s + t, sep) == |s| + UpTo(t, sep)
  {
    if s == "" {
      assert s + t == t;
    } else {
      assert (s + t)[1..] == s[1..] + t;
      UpToPrefix(s[1..], t, sep);
    }
  }

  /** Splitting undoes joining. */
  lemma {:induction false} SplitJoin(ss: seq<string>, sep: char)
    requires ss != [] && forall i :: 0 <= i < |ss| ==> sep !in ss[i]
    ensures Split(Join(ss, sep), sep) == ss
  {
    hide Split, UpTo;
    if |ss| == 1 {
      SplitWhole(ss[0], sep);
      assert ss == [ss[0]];
    } else {
      SplitJoin(ss[1..], sep);
      SplitFirst(ss[0], Join(ss[1..], sep), sep);
      assert ss[0] + [sep] + Join(ss[1..], sep) == ss[0] + ([sep] + Join(ss[1..], sep));
      assert ss == [ss[0]] + ss[1..];
    }
  }

  lemma SplitWhole(s: string, sep: char)
    requires sep !in s
    ensures Split(s, sep) == [s]
  {
    UpToPrefix(s, "", sep);
    assert s + "" == s;
  }

  lemma SplitFirst(s: string, rest: string, sep: char)
    requires sep !in s
    ensures Split(s + ([sep] + rest), sep) == [s] + Split(rest, sep)
  {
    UpToPrefix(s, [sep] + rest, sep);
    var t := s + ([sep] + rest);
    assert t[..|s|] == s && t[|s| + 1..] == rest;
  }

  // ---------- white space ----------

  predicate IsSpace(c: char) {
    c == ' ' || '\t' <= c <= '\r'
  }

  predicate NoSpace(s: string) {
    forall i :: 0 <= i < |s| ==> !IsSpace(s[i])
  }

  /** The length of the longest prefix without white space. */
  function WordLen(s: string): (n: nat)
    ensures n <= |s| && (n < |s| ==> IsSpace(s[n]))
    ensures NoSpace(s[..n])
  {
    if s == "" || IsSpace(s[0]) then 0
    else
      var n := 1 + WordLen(s[1..]);
      assert s[..n] == [s[0]] + s[1..][..n - 1];
      n
  }

  /** The words between white space. */
  function Tokens(s: string): (ts: seq<string>)
    ensures forall i :: 0 <= i < |ts| ==> ts[i] != "" && NoSpace(ts[i])
    decreases |s|
  {
    if s == "" then []
    else if IsSpace(s[0]) then Tokens(s[1..])
    else var n := WordLen(s); [s[..n]] + Tokens(s[n..])
  }

  lemma {:induction false} WordLenPrefix(s: string, t: string)
    requires NoSpace(s) && (t == "" || IsSpace(t[0]))
    ensures WordLen(s + t) == |s|
  {
    if s == "" {
      assert s + t == t;
    } else {
      assert (s + t)[1..] == s[1..] + t;
      WordLenPrefix(s[1..], t);
    }
  }

  /** Joining words with blanks and reading the words back changes nothing. */
  lemma {:induction false} TokensJoin(ts: seq<string>)
    requires forall i :: 0 <= i < |ts| ==> ts[i] != "" && NoSpace(ts[i])
    ensures Tokens(Join(ts, ' ')) == ts
  {
    if ts != [] {
      var rest := if |ts| == 1 then "" else " " + Join(ts[1..], ' ');
      var s := Join(ts, ' ');
      assert s == ts[0] + rest;
      WordLenPrefix(ts[0], rest);
      assert s[0] == ts[0][0];
      assert s[..|ts[0]|] == ts[0] && s[|ts[0]|..] == rest;
      if |ts| > 1 {
        TokensJoin(ts[1..]);
        assert rest[1..] == Join(ts[1..], ' ');
      }
      assert ts == [ts[0]] + ts[1..];
    }
  }

  // ---------- decimal numbers ----------

  predicate IsDigit(c: char) {
    '0' <= c <= '9'
  }

  predicate AllDigits(s: string) {
    forall i :: 0 <= i < |s| ==> IsDigit(s[i])
  }

  function Digit(d: nat): (c: char)
    requires d < 10
    ensures IsDigit(c) && DigitVal(c) == d
  {
    "0123456789"[d]
  }

  function DigitVal(c: char): nat
    requires IsDigit(c)
  {
    (c as int) - ('0' as int)
  }

  function Decimal(v: nat): (s: string)
    ensures s != "" && AllDigits(s)
  {
    if v < 10 then [Digit(v)] else Decimal(v / 10) + [Digit(v % 10)]
  }

  /** The number that a string of digits spells in a base. */
  function Number(s: string, base: nat): nat
    requires AllDigits(s)
  {
    if s == "" then 0 else base * Number(s[..|s| - 1], base) + DigitVal(s[|s| - 1])
  }

  lemma {:induction false} NumberOfDecimal(v: nat)
    ensures Number(Decimal(v), 10) == v
    ensures v > 0 ==> Decimal(v)[0] != '0'
  {
    if v >= 10 {
      NumberOfDecimal(v / 10);
      assert Decimal(v)[..|Decimal(v)| - 1] == Decimal(v / 10);
    }
  }

  /** Go's Atoi: digits after an optional sign. */
  function Atoi(s: string): Option<int> {
    var t := if s != "" && (s[0] == '+' || s[0] == '-') then s[1..] else s;
    if t == "" || !AllDigits(t) then None
    else
      var n: int := Number(t, 10);
      Some(if s[0] == '-' then -n else n)
  }

  lemma AtoiDecimal(v: nat)
    ensures Atoi(Decimal(v)) == Some(v)
  {
    NumberOfDecimal(v);
  }
}
