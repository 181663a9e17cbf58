/** What the two printers share: the histogram and the clauses it leads to. */
module Printing {
  import opened Bits
  import opened Words
  import opened CapSet
  import opened Strings
  import opened TextModel

  /** i & ^m on combinations of three flags. */
  function AndNot(i: nat, m: nat): (c: nat)
    ensures c < 8
  {
    CodeOf(Minus(PatOf(i), PatOf(m)))
  }

  /** The flag combination of one value, from the bits of its word. */
  function PatternOf(flat: Flat, v: nat): (x: nat)
    requires v < 32 * |flat|
    ensures x == CodeOf(ViewOf(flat)[v])
  {
    hide Bit;
    var b, u := v % 32, v / 32;
    (if Bit(flat[u].eff, b) then 1 else 0)
    + (if Bit(flat[u].per, b) then 2 else 0)
    + (if Bit(flat[u].inh, b) then 4 else 0)
  }

  ghost function Zeros(n: nat): (s: seq<nat>)
    ensures |s| == n
  {
    seq(n, _ => 0)
  }

  /** A fresh array of zeros. */
  method Blank(n: nat) returns (a: array<nat>)
    ensures fresh(a) && a.Length == n && a[..] == Zeros(n)
  {
    a := new nat[n](_ => 0);
  }

  /** One more of a combination. */
  method Bump(bins: array<nat>, x: nat, ghost was: seq<nat>)
    requires x < bins.Length && bins[..] == was
    modifies bins
    ensures bins[..] == was[x := was[x] + 1]
  {
    bins[x] := bins[x] + 1;
  }

  /** How often each of the eight combinations occurs in a range. */
  ghost function Tallied(caps: Caps, from: nat, v: nat): (bins: seq<nat>)
    requires from <= v <= |caps|
    ensures |bins| == 8
  {
    seq(8, k requires 0 <= k => Count(caps, k, from, v))
  }

  lemma TalliedNone(caps: Caps, from: nat)
    requires from <= |caps|
    ensures Tallied(caps, from, from) == Zeros(8)
  {
  }

  lemma TalliedNext(caps: Caps, from: nat, v: nat)
    requires from <= v < |caps|
    ensures
      var x, bins := CodeOf(caps[v]), Tallied(caps, from, v);
      Tallied(caps, from, v + 1) == bins[x := bins[x] + 1]
  {
    forall k | 0 <= k < 8
      ensures PatOf(k) == caps[v] <==> k == CodeOf(caps[v])
    {
      CodeOfPat(k);
    }
  }

  lemma ListNone(names: seq<string>, caps: Caps, i: nat, from: nat)
    requires from <= |caps|
    ensures NamesOf(names, Members(caps, PatOf(i), from, from)) == []
  {
  }

  lemma ListNext(names: seq<string>, caps: Caps, i: nat, from: nat, j: nat)
    requires from <= j < |caps| && i < 8
    ensures NamesOf(names, Members(caps, PatOf(i), from, j + 1)) ==
      NamesOf(names, Members(caps, PatOf(i), from, j)) + if CodeOf(caps[j]) == i then [NameOf(names, j)] else []
  {
    CodeOfPat(i);
    hide PatOf, CodeOf;
  }

  ghost function GroupsSnoc(groups: seq<Clause>, cl: Clause): (gs: seq<Clause>)
    requires GroupShape(groups) && cl.vals != [] && cl.op == '+'
    ensures gs == groups + [cl] && GroupShape(gs)
  {
    groups + [cl]
  }

  lemma NamedStep(caps: Caps, named: nat, m: nat)
    requires named <= |caps|
    ensures NamedGroups(caps, named, m, 0) == []
    ensures GroupShape([])
    ensures forall i :: 0 <= i < 8 && i != m && Count(caps, i, 0, named) != 0 ==>
      GroupOf(caps, named, m, i).vals != []
      && NamedGroups(caps, named, m, i + 1) == [GroupOf(caps, named, m, i)] + NamedGroups(caps, named, m, i)
    ensures forall i :: 0 <= i < 8 && (i == m || Count(caps, i, 0, named) == 0) ==>
      NamedGroups(caps, named, m, i + 1) == NamedGroups(caps, named, m, i)
  {
    hide Members, PatOf, Minus;
  }

  lemma Leftover(i: nat, m: nat)
    requires i < 8 && m < 8
    ensures PatOf(AndNot(i, m)) == Minus(PatOf(i), PatOf(m))
    ensures PatOf(AndNot(m, i)) == Minus(PatOf(m), PatOf(i))
    ensures AndNot(i, m) == 0 <==> Minus(PatOf(i), PatOf(m)) == LOWERED
    ensures AndNot(m, i) == 0 <==> Minus(PatOf(m), PatOf(i)) == LOWERED
    ensures m == 0 && i != 0 ==> AndNot(i, m) != 0
  {
    CodeOfPat(i);
    CodeOfPat(m);
  }

  ghost function UnnamedGroupOf(caps: Caps, named: nat, i: nat): Clause
    requires named <= |caps|
  {
    Clause(Members(caps, PatOf(i), named, |caps|), '+', PatOf(i), LOWERED)
  }

  lemma UnnamedStep(caps: Caps, named: nat)
    requires named <= |caps|
    ensures UnnamedGroups(caps, named, 1) == []
    ensures forall i :: 1 <= i < 8 && Count(caps, i, named, |caps|) != 0 ==>
      UnnamedGroups(caps, named, i + 1) == [UnnamedGroupOf(caps, named, i)] + UnnamedGroups(caps, named, i)
    ensures forall i :: 1 <= i < 8 && Count(caps, i, named, |caps|) == 0 ==>
      UnnamedGroups(caps, named, i + 1) == UnnamedGroups(caps, named, i)
  {
    hide Members, PatOf;
  }

  lemma NoTexts(names: seq<string>)
    ensures ClauseTexts(names, []) == []
  {
  }

  lemma TextsSnoc(names: seq<string>, cls: seq<Clause>, cl: Clause)
    ensures ClauseTexts(names, cls + [cl]) == ClauseTexts(names, cls) + [ClauseText(names, cl)]
  {
  }

  lemma {:induction false} TextsConcat(names: seq<string>, xs: seq<Clause>, ys: seq<Clause>)
    ensures ClauseTexts(names, xs + ys) == ClauseTexts(names, xs) + ClauseTexts(names, ys)
  {
  }

  ghost function GroupOf(caps: Caps, named: nat, m: nat, i: nat): Clause
    requires named <= |caps|
  {
    Clause(Members(caps, PatOf(i), 0, named), '+', Minus(PatOf(i), PatOf(m)), Minus(PatOf(m), PatOf(i)))
  }

  ghost predicate GroupShape(groups: seq<Clause>) {
    forall k :: 0 <= k < |groups| ==> groups[k].vals != [] && groups[k].op == '+'
  }
}
