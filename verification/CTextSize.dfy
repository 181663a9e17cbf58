/** How long the text of a set can get: it always fits the buffer of the C printer. */
module CTextSize {
  import opened CapSet
  import opened Strings
  import opened TextModel
  import opened Printing
  import opened CTextPrint

  /** The total length of some texts with one separator each. */
  function Width(ss: seq<string>): nat {
    if ss == [] then 0 else |ss[0]| + 1 + Width(ss[1..])
  }

  lemma {:induction false} JoinWidth(ss: seq<string>, sep: char)
    requires ss != []
    ensures |Join(ss, sep)| + 1 == Width(ss)
    decreases |ss|
  {
    if |ss| > 1 {
      JoinWidth(ss[1..], sep);
    }
  }

  lemma {:induction false} WidthConcat(xs: seq<string>, ys: seq<string>)
    ensures Width(xs + ys) == Width(xs) + Width(ys)
    decreases |xs|
  {
    if xs == [] {
      assert xs + ys == ys;
    } else {
      assert (xs + ys)[1..] == xs[1..] + ys;
      WidthConcat(xs[1..], ys);
    }
  }

  // ---------- every value is spelled at most once ----------

  /** The names of all the values of a range, one separator each. */
  function Spelling(names: seq<string>, lo: nat, hi: nat): nat
    requires lo <= hi
  {
    if lo == hi then 0 else Spelling(names, lo, hi - 1) + |NameOf(names, hi - 1)| + 1
  }

  /** The names in the groups of the combinations below i. */
  ghost function Spelled(names: seq<string>, caps: Caps, lo: nat, hi: nat, i: nat): nat
    requires lo <= hi <= |caps|
  {
    if i == 0 then 0 else Width(Listed(names, caps, i - 1, lo, hi)) + Spelled(names, caps, lo, hi, i - 1)
  }

  lemma {:induction false} SpelledNext(names: seq<string>, caps: Caps, lo: nat, hi: nat, i: nat)
    requires lo <= hi < |caps| && i <= 8
    ensures Spelled(names, caps, lo, hi + 1, i) ==
      Spelled(names, caps, lo, hi, i) + if CodeOf(caps[hi]) < i then |NameOf(names, hi)| + 1 else 0
    decreases i
  {
    if i > 0 {
      ListedNext(names, caps, i - 1, lo, hi);
      WidthConcat(Listed(names, caps, i - 1, lo, hi), [NameOf(names, hi)]);
      hide Listed, NameOf, CodeOf;
      SpelledNext(names, caps, lo, hi, i - 1);
    }
  }

  lemma {:induction false} SpelledOnce(names: seq<string>, caps: Caps, lo: nat, hi: nat, i: nat)
    requires lo <= hi <= |caps| && i <= 8
    ensures Spelled(names, caps, lo, hi, i) <= Spelling(names, lo, hi)
    decreases hi
  {
    hide Spelled, NameOf, CodeOf;
    if lo < hi {
      SpelledNext(names, caps, lo, hi - 1, i);
      SpelledOnce(names, caps, lo, hi - 1, i);
    } else {
      NothingSpelled(names, caps, lo, i);
    }
  }

  lemma {:induction false} NothingSpelled(names: seq<string>, caps: Caps, lo: nat, i: nat)
    requires lo <= |caps|
    ensures Spelled(names, caps, lo, lo, i) == 0
    decreases i
  {
    if i > 0 {
      NothingSpelled(names, caps, lo, i - 1);
    }
  }

  // ---------- the clauses ----------

  /** Eight characters of actions for each clause and its names. */
  function Bound(names: seq<string>, cls: seq<Clause>): nat {
    if cls == [] then 0 else 8 + Width(NamesOf(names, cls[0].vals)) + Bound(names, cls[1..])
  }

  lemma {:induction false} BoundConcat(names: seq<string>, xs: seq<Clause>, ys: seq<Clause>)
    ensures Bound(names, xs + ys) == Bound(names, xs) + Bound(names, ys)
    decreases |xs|
  {
    if xs == [] {
      assert xs + ys == ys;
    } else {
      assert (xs + ys)[1..] == xs[1..] + ys;
      BoundConcat(names, xs[1..], ys);
    }
  }

  lemma ActionLength(cl: Clause)
    ensures |ActionText(cl)| <= 8
  {
    FlagTextLength(cl.up);
    FlagTextLength(cl.down);
    hide FlagText;
  }

  lemma {:induction false} ClausesWithinBound(names: seq<string>, cls: seq<Clause>)
    requires forall k :: 0 <= k < |cls| ==> cls[k].vals != []
    ensures Width(ClauseTexts(names, cls)) <= Bound(names, cls)
    decreases |cls|
  {
    if cls != [] {
      JoinWidth(NamesOf(names, cls[0].vals), ',');
      ActionLength(cls[0]);
      assert ClauseTexts(names, cls)[1..] == ClauseTexts(names, cls[1..]);
      hide ActionText, Join, NamesOf;
      ClausesWithinBound(names, cls[1..]);
    }
  }

  lemma {:induction false} NamedBound(names: seq<string>, caps: Caps, named: nat, m: nat, i: nat)
    requires named <= |caps|
    ensures Bound(names, NamedGroups(caps, named, m, i)) <= 8 * i + Spelled(names, caps, 0, named, i)
    decreases i
  {
    if i > 0 {
      NamedBound(names, caps, named, m, i - 1);
      var rest := NamedGroups(caps, named, m, i - 1);
      var vals := Members(caps, PatOf(i - 1), 0, named);
      hide Members, PatOf, Minus;
      if i - 1 != m && vals != [] {
        BoundConcat(names, [Clause(vals, '+', Minus(PatOf(i - 1), PatOf(m)), Minus(PatOf(m), PatOf(i - 1)))], rest);
      } else {
        assert [] + rest == rest;
      }
    }
  }

  lemma {:induction false} UnnamedBound(names: seq<string>, caps: Caps, named: nat, i: nat)
    requires named <= |caps|
    ensures Bound(names, UnnamedGroups(caps, named, i)) <= 8 * i + Spelled(names, caps, named, |caps|, i)
    decreases i
  {
    if i > 1 {
      UnnamedBound(names, caps, named, i - 1);
      var rest := UnnamedGroups(caps, named, i - 1);
      var vals := Members(caps, PatOf(i - 1), named, |caps|);
      hide Members, PatOf;
      if vals != [] {
        BoundConcat(names, [Clause(vals, '+', PatOf(i - 1), LOWERED)], rest);
      } else {
        assert [] + rest == rest;
      }
    }
  }

  lemma {:induction false} SpellingSplits(names: seq<string>, mid: nat, hi: nat)
    requires mid <= hi
    ensures Spelling(names, 0, mid) + Spelling(names, mid, hi) == Spelling(names, 0, hi)
    decreases hi
  {
    if mid < hi {
      SpellingSplits(names, mid, hi - 1);
    }
  }

  /** The text of any set is at most its names, spelled once each, and 132 more characters. */
  lemma LengthBound(names: seq<string>, caps: Caps, named: nat)
    requires named <= |caps|
    ensures RawLength(names, caps, named) <= Spelling(names, 0, |caps|) + 132
  {
    var m := Background(caps, named);
    var groups, us := NamedGroups(caps, named, m, 8), UnnamedGroups(caps, named, 8);
    BackgroundIsLeastBest(caps, named);
    NamedGroupsAdd(caps, named, m, 8);
    UnnamedGroupsAdd(caps, named, 8);
    NamedBound(names, caps, named, m, 8);
    UnnamedBound(names, caps, named, 8);
    SpelledOnce(names, caps, 0, named, 8);
    SpelledOnce(names, caps, named, |caps|, 8);
    SpellingSplits(names, named, |caps|);
    RawLengthIs(names, caps, named);
    RawWidth(names, m, groups, us);
    hide *;
  }

  lemma RawWidth(names: seq<string>, m: nat, groups: seq<Clause>, us: seq<Clause>)
    requires forall k :: 0 <= k < |groups| ==> groups[k].vals != []
    requires forall k :: 0 <= k < |us| ==> us[k].vals != []
    ensures |Join(Raw(names, m, groups, us), ' ')| <= 4 + Bound(names, groups) + Bound(names, us)
  {
    var later := Later(m, groups);
    assert Bound(names, later) == Bound(names, groups) by {
      if m == 0 && groups != [] {
        assert later[1..] == groups[1..];
      }
    }
    BoundConcat(names, later, us);
    ClausesWithinBound(names, later + us);
    JoinWidth(Raw(names, m, groups, us), ' ');
    FlagTextLength(PatOf(m));
    assert Raw(names, m, groups, us)[1..] == ClauseTexts(names, later + us);
    hide Bound, Join, ClauseTexts, FlagText, PatOf;
  }

  // ---------- the buffer ----------

  lemma {:induction false} SpellingBound(names: seq<string>, size: nat, hi: nat)
    requires forall v :: 0 <= v < |names| ==> |names[v]| < size
    requires hi <= 100
    ensures Spelling(names, 0, hi) <= if hi <= |names| then hi * size else |names| * size + 3 * (hi - |names|)
    decreases hi
  {
    if hi > 0 {
      SpellingBound(names, size, hi - 1);
      TwoDigits(hi - 1);
      hide Decimal;
      if hi <= |names| {
        assert (hi - 1) * size + size == hi * size;
      }
    }
  }

  lemma TwoDigits(v: nat)
    requires v < 100
    ensures |Decimal(v)| <= 2
  {
    assert v >= 10 ==> |Decimal(v / 10)| == 1;
  }

  /** With at most 41 names and 64 values the C printer never runs out of room: its limit is
      the longest name with its terminator, for each of the values. */
  lemma AlwaysFits(names: seq<string>, caps: Caps, named: nat, size: nat)
    requires named <= |caps| == 64 && |names| <= 41
    requires 10 <= size && forall v :: 0 <= v < |names| ==> |names[v]| < size
    ensures RawLength(names, caps, named) <= size * 64
  {
    LengthBound(names, caps, named);
    SpellingBound(names, size, 64);
    hide *;
    Arithmetic(|names|, size);
  }

  lemma Arithmetic(n: nat, size: nat)
    requires n <= 41 && 10 <= size
    ensures n * size + 3 * (64 - n) + 132 <= size * 64
  {
    assert (64 - n) * (size - 3) >= 23 * (size - 3);
  }
}
