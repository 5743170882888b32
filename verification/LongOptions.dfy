/** Matching of an abbreviated long option name: the table search of `parse_long_options`. */
module LongOptions {
  import opened Basics

  /** One row of the caller's table. A flag is identified by the variable it points to. */
  datatype LongOption = LongOption(name: string, hasArg: int, flag: Option<nat>, val: int)

  const NO_ARGUMENT := 0
  const REQUIRED_ARGUMENT := 1
  const OPTIONAL_ARGUMENT := 2

  /** What a caller can tell apart: everything in a row but its name. */
  predicate SameInterpretation(x: LongOption, y: LongOption) {
    x.hasArg == y.hasArg && x.flag == y.flag && x.val == y.val
  }

  /** A row whose name extends the key; a single character is no abbreviation when it could be
      a short option. */
  predicate Abbreviates(key: string, shortToo: bool, o: LongOption) {
    key <= o.name && key != o.name && !(shortToo && |key| == 1)
  }

  datatype Selection = NoMatch | Ambiguous | Match(index: nat)

  /** k is the first row of t for which p holds. */
  ghost predicate IsFirst(t: seq<LongOption>, p: LongOption -> bool, k: nat) {
    k < |t| && p(t[k]) && forall j :: 0 <= j < k ==> !p(t[j])
  }

  /** The first row with the exact name; failing that the first abbreviated row, unless another
      abbreviated row has a different interpretation. */
  ghost predicate IsSelection(t: seq<LongOption>, key: string, shortToo: bool, s: Selection) {
    var exact := (o: LongOption) => o.name == key;
    var abbr := (o: LongOption) => Abbreviates(key, shortToo, o);
    if exists o :: o in t && exact(o) then
      s.Match? && IsFirst(t, exact, s.index)
    else if !exists o :: o in t && abbr(o) then
      s == NoMatch
    else if exists x, y :: x in t && y in t && abbr(x) && abbr(y) && !SameInterpretation(x, y) then
      s == Ambiguous
    else
      s.Match? && IsFirst(t, abbr, s.index)
  }

  /** What the loop over the table has found in the rows before k. */
  ghost predicate Found(t: seq<LongOption>, key: string, shortToo: bool, k: nat, matched: int, ambiguous: bool)
    requires k <= |t| && -1 <= matched < k
  {
    && (forall j :: 0 <= j < k ==> t[j].name != key)
    && (matched == -1 ==> !ambiguous && forall j :: 0 <= j < k ==> !Abbreviates(key, shortToo, t[j]))
    && (matched != -1 ==>
          && Abbreviates(key, shortToo, t[matched])
          && (forall j :: 0 <= j < matched ==> !Abbreviates(key, shortToo, t[j]))
          && (ambiguous <==>
              exists j :: matched < j < k && Abbreviates(key, shortToo, t[j]) && !SameInterpretation(t[j], t[matched])))
  }

  /** At the end of the table that is the selection. */
  lemma FoundSelects(t: seq<LongOption>, key: string, shortToo: bool, matched: int, ambiguous: bool)
    requires -1 <= matched < |t| && Found(t, key, shortToo, |t|, matched, ambiguous)
    ensures IsSelection(t, key, shortToo,
                        if ambiguous then Ambiguous else if matched != -1 then Match(matched) else NoMatch)
  {
    hide Abbreviates;
    if matched != -1 {
      assert t[matched] in t;
    }
  }

  lemma ExactSelects(t: seq<LongOption>, key: string, shortToo: bool, k: nat)
    requires k < |t| && t[k].name == key && forall j :: 0 <= j < k ==> t[j].name != key
    ensures IsSelection(t, key, shortToo, Match(k))
  {
    hide Abbreviates, SameInterpretation;
    assert t[k] in t;
  }

  /** The loop over the table. */
  method FindLongOption(t: seq<LongOption>, key: string, shortToo: bool) returns (s: Selection)
    ensures IsSelection(t, key, shortToo, s)
    ensures s == Select(t, key, shortToo)
  {
    hide IsSelection, Select, SameInterpretation;
    var matched: int := -1;
    var ambiguous := false;
    var i := 0;
    while i < |t|
      invariant 0 <= i <= |t| && -1 <= matched < i
      invariant Found(t, key, shortToo, i, matched, ambiguous)
    {
      if key <= t[i].name {
        if |t[i].name| == |key| {
          assert t[i].name == key;
          ExactSelects(t, key, shortToo, i);
          SelectionIsUnique(t, key, shortToo, Match(i));
          return Match(i);
        }
        if !(shortToo && |key| == 1) {
          if matched == -1 {
            matched := i;
          } else if !SameInterpretation(t[i], t[matched]) {
            ambiguous := true;
          }
        }
      }
      i := i + 1;
    }
    s := if ambiguous then Ambiguous else if matched != -1 then Match(matched) else NoMatch;
    FoundSelects(t, key, shortToo, matched, ambiguous);
    SelectionIsUnique(t, key, shortToo, s);
  }

  // ---- the selection as a function of the table ------------------------------------------

  /** The first row from k on with the exact name. */
  function FindExact(t: seq<LongOption>, key: string, k: nat): (e: nat)
    requires k <= |t|
    ensures k <= e <= |t|
    decreases |t| - k
  {
    if k == |t| || t[k].name == key then k else FindExact(t, key, k + 1)
  }

  /** The first row from k on that the key abbreviates. */
  function FindAbbreviated(t: seq<LongOption>, key: string, shortToo: bool, k: nat): (f: nat)
    requires k <= |t|
    ensures k <= f <= |t|
    decreases |t| - k
  {
    if k == |t| || Abbreviates(key, shortToo, t[k]) then k else FindAbbreviated(t, key, shortToo, k + 1)
  }

  /** No abbreviated row from k on means anything but o. */
  predicate OnlyMeans(t: seq<LongOption>, key: string, shortToo: bool, o: LongOption, k: nat)
    requires k <= |t|
    decreases |t| - k
  {
    k == |t| || ((Abbreviates(key, shortToo, t[k]) ==> SameInterpretation(t[k], o))
        && OnlyMeans(t, key, shortToo, o, k + 1))
  }

  function Select(t: seq<LongOption>, key: string, shortToo: bool): (s: Selection)
    ensures s.Match? ==> s.index < |t|
  {
    var e, f := FindExact(t, key, 0), FindAbbreviated(t, key, shortToo, 0);
    if e < |t| then Match(e)
    else if f == |t| then NoMatch
    else if OnlyMeans(t, key, shortToo, t[f], 0) then Match(f)
    else Ambiguous
  }

  lemma {:induction false} FindExactFinds(t: seq<LongOption>, key: string, k: nat)
    requires k <= |t|
    ensures var e := FindExact(t, key, k);
            (e < |t| ==> t[e].name == key) && forall j :: k <= j < e ==> t[j].name != key
    decreases |t| - k
  {
    if k < |t| && t[k].name != key {
      FindExactFinds(t, key, k + 1);
    }
  }

  lemma {:induction false} FindAbbreviatedFinds(t: seq<LongOption>, key: string, shortToo: bool, k: nat)
    requires k <= |t|
    ensures var f := FindAbbreviated(t, key, shortToo, k);
            && (f < |t| ==> Abbreviates(key, shortToo, t[f]))
            && forall j :: k <= j < f ==> !Abbreviates(key, shortToo, t[j])
    decreases |t| - k
  {
    if k < |t| && !Abbreviates(key, shortToo, t[k]) {
      FindAbbreviatedFinds(t, key, shortToo, k + 1);
    }
  }

  lemma {:induction false} OnlyMeansAll(t: seq<LongOption>, key: string, shortToo: bool, o: LongOption, k: nat)
    requires k <= |t|
    ensures OnlyMeans(t, key, shortToo, o, k) <==>
            forall j :: k <= j < |t| && Abbreviates(key, shortToo, t[j]) ==> SameInterpretation(t[j], o)
    decreases |t| - k
  {
    if k < |t| {
      OnlyMeansAll(t, key, shortToo, o, k + 1);
    }
  }

  /** Select is the selection the declarative rule asks for ... */
  lemma SelectSelects(t: seq<LongOption>, key: string, shortToo: bool)
    ensures IsSelection(t, key, shortToo, Select(t, key, shortToo))
  {
    var e, f := FindExact(t, key, 0), FindAbbreviated(t, key, shortToo, 0);
    FindExactFinds(t, key, 0);
    FindAbbreviatedFinds(t, key, shortToo, 0);
    if e < |t| {
      assert t[e] in t;
    } else if f < |t| {
      OnlyMeansAll(t, key, shortToo, t[f], 0);
      assert t[f] in t;
    }
  }

  /** ... and the rule leaves no choice. */
  lemma SelectionIsUnique(t: seq<LongOption>, key: string, shortToo: bool, s: Selection)
    requires IsSelection(t, key, shortToo, s)
    ensures s == Select(t, key, shortToo)
  {
    SelectSelects(t, key, shortToo);
  }

  /** An exact name wins whatever surrounds it: the first row that carries it is selected. */
  lemma ExactNameWins(before: seq<LongOption>, o: LongOption, after: seq<LongOption>, shortToo: bool)
    requires forall x :: x in before ==> x.name != o.name
    ensures Select(before + [o] + after, o.name, shortToo) == Match(|before|)
  {
    var t := before + [o] + after;
    assert t[|before|] == o;
    SelectionIsUnique(t, o.name, shortToo, Match(|before|));
  }

  /** The key is the beginning of the name, or all of it. */
  predicate Begins(name: string, key: string) {
    |key| <= |name| && name[..|key|] == key
  }

  /** Which selection it is, said of the names and of what is in the rows. */
  ghost predicate ByName(t: seq<LongOption>, key: string, shortToo: bool, s: Selection) {
    var named := exists o :: o in t && o.name == key;
    var partial := !named && !(shortToo && |key| == 1);
    match s
    case Match(k) =>
      && k < |t|
      && if named then t[k].name == key && forall j :: 0 <= j < k ==> t[j].name != key
         else partial && Begins(t[k].name, key)
              && forall j :: 0 <= j < |t| && Begins(t[j].name, key) ==>
                   k <= j && t[j].hasArg == t[k].hasArg && t[j].flag == t[k].flag && t[j].val == t[k].val
    case Ambiguous =>
      partial && exists i, j :: 0 <= i < |t| && 0 <= j < |t| && Begins(t[i].name, key) && Begins(t[j].name, key)
                                && (t[i].hasArg != t[j].hasArg || t[i].flag != t[j].flag || t[i].val != t[j].val)
    case NoMatch => !named && (partial ==> forall o :: o in t ==> !Begins(o.name, key))
  }

  lemma SelectionMeansByName(t: seq<LongOption>, key: string, shortToo: bool, s: Selection)
    requires IsSelection(t, key, shortToo, s)
    ensures ByName(t, key, shortToo, s)
  {
    assert forall o :: o in t ==> (Abbreviates(key, shortToo, o) || o.name == key
                                   <==> Begins(o.name, key) && (o.name == key || !(shortToo && |key| == 1)));
    hide Abbreviates, Begins;
    assert forall j :: 0 <= j < |t| ==> t[j] in t;
    if s.Ambiguous? {
      var x, y :| x in t && y in t && Abbreviates(key, shortToo, x) && Abbreviates(key, shortToo, y)
                  && !SameInterpretation(x, y);
      var i, j :| 0 <= i < |t| && 0 <= j < |t| && t[i] == x && t[j] == y;
    } else if s.Match? {
      assert t[s.index] in t;
    }
  }

  /** Only one selection is by name. */
  lemma ByNameIsUnique(t: seq<LongOption>, key: string, shortToo: bool, a: Selection, b: Selection)
    requires ByName(t, key, shortToo, a) && ByName(t, key, shortToo, b)
    ensures a == b
  {
    hide Begins;
    assert forall k :: 0 <= k < |t| ==> t[k] in t;
  }

  /** The first row of that name; failing that the first row that the key begins, when all such rows have
      the same argument, flag and value. */
  lemma SelectionByName(t: seq<LongOption>, key: string, shortToo: bool, s: Selection)
    ensures Select(t, key, shortToo) == s <==> ByName(t, key, shortToo, s)
  {
    SelectSelects(t, key, shortToo);
    SelectionMeansByName(t, key, shortToo, Select(t, key, shortToo));
    hide ByName, IsSelection, Select;
    if ByName(t, key, shortToo, s) {
      ByNameIsUnique(t, key, shortToo, s, Select(t, key, shortToo));
    }
  }

  /** What a selection means to the caller, its position in the table left out. */
  datatype Meaning = Unknown | Unclear | Means(hasArg: int, flag: Option<nat>, val: int)

  function MeaningOf(t: seq<LongOption>, key: string, shortToo: bool): Meaning {
    match Select(t, key, shortToo)
    case NoMatch => Unknown
    case Ambiguous => Unclear
    case Match(k) => Means(t[k].hasArg, t[k].flag, t[k].val)
  }

  /** Two rows with one name mean the same: names are distinct, or repeated to no effect. */
  ghost predicate NamesDetermineMeaning(t: seq<LongOption>) {
    forall x, y :: x in t && y in t && x.name == y.name ==> SameInterpretation(x, y)
  }

  /** Then the meaning does not depend on the order of the table, only on which rows it has. */
  lemma MeaningIgnoresOrder(t: seq<LongOption>, u: seq<LongOption>, key: string, shortToo: bool)
    requires forall o :: o in t <==> o in u
    requires NamesDetermineMeaning(t)
    ensures MeaningOf(t, key, shortToo) == MeaningOf(u, key, shortToo)
  {
    var s, s' := Select(t, key, shortToo), Select(u, key, shortToo);
    SelectSelects(t, key, shortToo);
    SelectSelects(u, key, shortToo);
    hide Select, Abbreviates;
    if s.Match? && s'.Match? {
      assert t[s.index] in t && u[s'.index] in t;
      assert t[s.index].name == key <==> u[s'.index].name == key;
    }
  }

  lemma FrontedIsReordering<T>(t: seq<T>, m: nat, u: seq<T>)
    requires m < |t| && u == [t[m]] + (t[..m] + t[m + 1..])
    ensures multiset(u) == multiset(t)
  {
    assert t == t[..m] + ([t[m]] + t[m + 1..]);
  }

  /** The meaning of a name that several rows carry is that of the first of them. */
  lemma FirstNamedCounts(t: seq<LongOption>, x: LongOption, shortToo: bool)
    requires x in t
    ensures var s := Select(t, x.name, shortToo); s.Match? && t[s.index].name == x.name
    ensures t[0].name == x.name ==> Select(t, x.name, shortToo) == Match(0)
  {
    SelectSelects(t, x.name, shortToo);
  }

  /** The condition is needed: wherever it fails there is a key and a reordering that differ. */
  lemma OrderMattersOtherwise(t: seq<LongOption>) returns (u: seq<LongOption>, key: string)
    requires !NamesDetermineMeaning(t)
    ensures multiset(u) == multiset(t)
    ensures MeaningOf(t, key, false) != MeaningOf(u, key, false)
  {
    var x, y :| x in t && y in t && x.name == y.name && !SameInterpretation(x, y);
    hide NamesDetermineMeaning, Select;
    key := x.name;
    FirstNamedCounts(t, x, false);
    var k := Select(t, key, false).index;
    var z := if SameInterpretation(t[k], x) then y else x;
    var m :| 0 <= m < |t| && t[m] == z;
    u := [t[m]] + (t[..m] + t[m + 1..]);
    FrontedIsReordering(t, m, u);
    assert u[0] == z && z in u;
    FirstNamedCounts(u, z, false);
  }
}
