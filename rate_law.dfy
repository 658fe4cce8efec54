/**
 * Participant grouping and rate-expression assembly (`Counter`,
 * `processRateLaw`, `getSubprd`, `listofname`).
 *
 * A participant list may name the same pool several times. The writer
 * groups it into (pool, occurrence count) pairs in first-occurrence
 * order, emits one species reference per pair, and joins one factor per
 * pair with `*`, writing `^n` after the id when the count n is not 1.
 */
module RateLaw {
  import opened Wrappers
  import opened Strings
  import opened Sanitize
  import opened MooseTree

  /** The role of a participant list: substrates, products or modifiers. */
  datatype Role = Sub | Prd | Mod

  /**
   * A species reference of an SBML reaction. Reactant and product
   * references carry a stoichiometry and a constant flag; modifier
   * references carry neither.
   */
  datatype SpeciesRef = SpeciesRef(species: string, stoichiometry: Option<nat>, constant: Option<bool>)

  /** The elements of `xs` without repeats, in order of first occurrence. */
  function Distinct<T(==,!new)>(xs: seq<T>): (d: seq<T>)
    ensures forall x :: x in d <==> x in xs
    ensures forall i, j :: 0 <= i < j < |d| ==> d[i] != d[j]
    decreases |xs|
  {
    if xs == [] then []
    else
      var init := xs[..|xs| - 1];
      assert xs == init + [xs[|xs| - 1]];
      var d := Distinct(init);
      if xs[|xs| - 1] in d then d else d + [xs[|xs| - 1]]
  }

  /** The first distinct element is the first element. */
  lemma {:induction false} DistinctHead<T(!new)>(xs: seq<T>)
    requires xs != []
    ensures |Distinct(xs)| > 0 && Distinct(xs)[0] == xs[0]
    decreases |xs|
  {
    var init := xs[..|xs| - 1];
    assert xs == init + [xs[|xs| - 1]];
    if init != [] {
      DistinctHead(init);
      assert init[0] == xs[0];
    }
  }

  /** Python's `items.count(x)`. */
  function Count<T(==)>(xs: seq<T>, x: T): nat
  {
    multiset(xs)[x]
  }

  /** The position of the first occurrence of `x` in `xs`. */
  function FirstIndex<T(==)>(xs: seq<T>, x: T): (k: nat)
    requires x in xs
    ensures k < |xs| && xs[k] == x && forall j :: 0 <= j < k ==> xs[j] != x
  {
    if xs[0] == x then 0 else 1 + FirstIndex(xs[1..], x)
  }

  /** `Distinct` lists the elements in the order of their first occurrences. */
  lemma {:induction false} DistinctOrder<T(!new)>(xs: seq<T>, i: nat, j: nat)
    requires i < j < |Distinct(xs)|
    ensures FirstIndex(xs, Distinct(xs)[i]) < FirstIndex(xs, Distinct(xs)[j])
    decreases |xs|
  {
    var init := xs[..|xs| - 1];
    var last := xs[|xs| - 1];
    assert xs == init + [last];
    var d := Distinct(init);
    var a, b := Distinct(xs)[i], Distinct(xs)[j];
    PrefixFirstIndex(init, last, a);
    if j < |d| {
      assert a == d[i] && b == d[j];
      PrefixFirstIndex(init, last, b);
      DistinctOrder(init, i, j);
    } else {
      assert b == last && b !in init;
      assert a in init;
      assert FirstIndex(xs, b) == |init| by {
        FirstIndexOfNew(init, last);
      }
    }
  }

  lemma PrefixFirstIndex<T>(init: seq<T>, last: T, x: T)
    requires x in init
    ensures FirstIndex(init + [last], x) == FirstIndex(init, x)
    decreases |init|
  {
    if init[0] != x {
      assert (init + [last])[1..] == init[1..] + [last];
      PrefixFirstIndex(init[1..], last, x);
    }
  }

  lemma FirstIndexOfNew<T>(init: seq<T>, last: T)
    requires last !in init
    ensures FirstIndex(init + [last], last) == |init|
    decreases |init|
  {
    if init != [] {
      assert (init + [last])[1..] == init[1..] + [last];
      FirstIndexOfNew(init[1..], last);
    }
  }

  /**
   * `Counter(items)`: one (element, occurrence count) pair per distinct
   * element, in first-occurrence order, as the dict comprehension builds it.
   */
  function Counter(items: seq<Ref>): (oc: seq<(Ref, nat)>)
    ensures |oc| == |Distinct(items)|
    ensures forall i :: 0 <= i < |oc| ==>
      oc[i].0 == Distinct(items)[i] && oc[i].1 == Count(items, oc[i].0) && oc[i].1 > 0
  {
    var d := Distinct(items);
    assert forall i :: 0 <= i < |d| ==> d[i] in items;
    seq(|d|, i requires 0 <= i < |d| => (d[i], Count(items, d[i])))
  }

  /** The total of the counts. */
  function SumCounts(oc: seq<(Ref, nat)>): nat
    decreases |oc|
  {
    if oc == [] then 0 else SumCounts(oc[..|oc| - 1]) + oc[|oc| - 1].1
  }

  /** Sum of the multiplicities of the distinct elements `d` in `m`. */
  function SumMult(d: seq<Ref>, m: multiset<Ref>): nat
    decreases |d|
  {
    if d == [] then 0 else SumMult(d[..|d| - 1], m) + m[d[|d| - 1]]
  }

  lemma {:induction false} SumMultAdd(d: seq<Ref>, m: multiset<Ref>, x: Ref)
    requires forall i, j :: 0 <= i < j < |d| ==> d[i] != d[j]
    ensures SumMult(d, m + multiset{x}) == SumMult(d, m) + (if x in d then 1 else 0)
    decreases |d|
  {
    if d != [] {
      var init := d[..|d| - 1];
      assert d == init + [d[|d| - 1]];
      SumMultAdd(init, m, x);
    }
  }

  lemma {:induction false} SumCountsIsSumMult(items: seq<Ref>)
    ensures SumCounts(Counter(items)) == SumMult(Distinct(items), multiset(items))
  {
    var oc := Counter(items);
    var d := Distinct(items);
    SumCountsPrefix(oc, d, multiset(items), |oc|);
    assert oc[..|oc|] == oc && d[..|d|] == d;
  }

  lemma {:induction false} SumCountsPrefix(oc: seq<(Ref, nat)>, d: seq<Ref>, m: multiset<Ref>, k: nat)
    requires |oc| == |d| && k <= |oc|
    requires forall i :: 0 <= i < |oc| ==> oc[i].0 == d[i] && oc[i].1 == m[d[i]]
    ensures SumCounts(oc[..k]) == SumMult(d[..k], m)
    decreases k
  {
    if k > 0 {
      assert oc[..k][..k - 1] == oc[..k - 1];
      assert d[..k][..k - 1] == d[..k - 1];
      SumCountsPrefix(oc, d, m, k - 1);
    }
  }

  /** Every occurrence is counted once: the counts add up to the list's length. */
  lemma {:induction false} CounterTotal(items: seq<Ref>)
    ensures SumCounts(Counter(items)) == |items|
    decreases |items|
  {
    SumCountsIsSumMult(items);
    DistinctSumMult(items);
  }

  lemma {:induction false} DistinctSumMult(items: seq<Ref>)
    ensures SumMult(Distinct(items), multiset(items)) == |items|
    decreases |items|
  {
    if items != [] {
      var init := items[..|items| - 1];
      var last := items[|items| - 1];
      assert items == init + [last];
      assert multiset(items) == multiset(init) + multiset{last};
      var d := Distinct(init);
      DistinctSumMult(init);
      SumMultAdd(d, multiset(init), last);
      if last !in d {
        assert Distinct(items) == d + [last];
        assert (d + [last])[..|d|] == d;
        assert multiset(init)[last] == 0;
        assert SumMult(d + [last], multiset(items)) ==
          SumMult(d, multiset(items)) + multiset(items)[last];
      }
    }
  }

  /** One factor of a rate expression. */
  function Term(id: string, n: nat): (t: string)
    ensures |t| >= |id| && t[..|id|] == id
    ensures t == id <==> n == 1
  {
    if n == 1 then id else id + "^" + NatToString(n)
  }

  /** The factors joined by `*`, accumulated left to right as the loop does. */
  function JoinStar(ts: seq<string>): (r: string)
    ensures |ts| == 1 ==> r == ts[0]
    ensures |ts| > 1 ==> |r| > 0
    decreases |ts|
  {
    if |ts| == 0 then ""
    else if |ts| == 1 then ts[0]
    else JoinStar(ts[..|ts| - 1]) + "*" + ts[|ts| - 1]
  }

  /** Splits `s` at every `*`. */
  function SplitStar(s: string): (parts: seq<string>)
    ensures |parts| > 0
    decreases |s|
  {
    if s == [] then [""]
    else if s[|s| - 1] == '*' then SplitStar(s[..|s| - 1]) + [""]
    else
      var p := SplitStar(s[..|s| - 1]);
      p[..|p| - 1] + [p[|p| - 1] + [s[|s| - 1]]]
  }

  lemma {:induction false} SplitStarPlain(s: string)
    requires '*' !in s
    ensures SplitStar(s) == [s]
    decreases |s|
  {
    if s != [] {
      SplitStarPlain(s[..|s| - 1]);
      assert s[..|s| - 1] + [s[|s| - 1]] == s;
    }
  }

  lemma {:induction false} SplitStarAppend(a: string, t: string)
    requires '*' !in t
    ensures SplitStar(a + "*" + t) == SplitStar(a) + [t]
    decreases |t|
  {
    if t == [] {
      assert a + "*" + t == a + "*";
      assert (a + "*")[..|a + "*"| - 1] == a;
    } else {
      var x := a + "*" + t;
      var t' := t[..|t| - 1];
      assert x[..|x| - 1] == a + "*" + t';
      SplitStarAppend(a, t');
      SplitStarPlain(t');
      SplitStarPlain(t);
      assert t' + [t[|t| - 1]] == t;
    }
  }

  /** Splitting a joined expression at `*` gives the factors back. */
  lemma {:induction false} JoinSplitRoundTrip(ts: seq<string>)
    requires |ts| > 0
    requires forall i :: 0 <= i < |ts| ==> '*' !in ts[i]
    ensures SplitStar(JoinStar(ts)) == ts
    decreases |ts|
  {
    if |ts| == 1 {
      SplitStarPlain(ts[0]);
    } else {
      var init := ts[..|ts| - 1];
      JoinSplitRoundTrip(init);
      SplitStarAppend(JoinStar(init), ts[|ts| - 1]);
      assert init + [ts[|ts| - 1]] == ts;
    }
  }

  /** The clean id of each (element, count) pair's element, with its count. */
  function Named(oc: seq<(Ref, nat)>): (np: seq<(string, nat)>)
    ensures |np| == |oc|
    ensures forall i :: 0 <= i < |oc| ==> np[i].1 == oc[i].1
  {
    seq(|oc|, i requires 0 <= i < |oc| => (CleanId(oc[i].0), oc[i].1))
  }

  /** The factor of each named pair. */
  function TermsOf(np: seq<(string, nat)>): (ts: seq<string>)
    ensures |ts| == |np|
  {
    seq(|np|, i requires 0 <= i < |np| => Term(np[i].0, np[i].1))
  }

  /** The id of each named pair. */
  function IdsOf(np: seq<(string, nat)>): (ids: seq<string>)
    ensures |ids| == |np|
  {
    seq(|np|, i requires 0 <= i < |np| => np[i].0)
  }

  /** The species reference of one named pair in the given role. */
  function RefOf(p: (string, nat), role: Role, constTrue: seq<string>): SpeciesRef
  {
    if role == Mod then SpeciesRef(p.0, None, None)
    else SpeciesRef(p.0, Some(p.1), Some(p.0 in constTrue))
  }

  function RefsOf(np: seq<(string, nat)>, role: Role, constTrue: seq<string>): (refs: seq<SpeciesRef>)
    ensures |refs| == |np|
  {
    seq(|np|, i requires 0 <= i < |np| => RefOf(np[i], role, constTrue))
  }

  /** The rate expression `processRateLaw` builds from grouped participants. */
  function RateExpr(oc: seq<(Ref, nat)>): string
  {
    JoinStar(TermsOf(Named(oc)))
  }

  /** A factor has a `*` only if its id has one. */
  lemma TermHasNoStar(id: string, n: nat)
    requires '*' !in id
    ensures '*' !in Term(id, n)
  {
    if n != 1 {
      var digits := NatToString(n);
      assert Term(id, n) == id + ("^" + digits);
      assert forall i :: 0 <= i < |digits| ==> digits[i] != '*';
    }
  }

  lemma NamedNoStar(oc: seq<(Ref, nat)>)
    ensures forall i :: 0 <= i < |oc| ==> '*' !in Named(oc)[i].0
  {
    forall i | 0 <= i < |oc| ensures '*' !in Named(oc)[i].0 {
      CleanIdNoStar(oc[i].0);
    }
  }

  /**
   * The rate expression of a participant list splits at `*` into exactly
   * one factor per distinct participant, in first-occurrence order; the
   * factor is the participant's clean id, followed by `^count` exactly
   * when the count is not 1.
   */
  lemma RateExprFactors(items: seq<Ref>)
    requires |items| > 0
    ensures var parts := SplitStar(RateExpr(Counter(items))); var d := Distinct(items);
      |parts| == |d| &&
      forall i :: 0 <= i < |d| ==> parts[i] == Term(CleanId(d[i]), Count(items, d[i]))
  {
    var oc := Counter(items);
    var np := Named(oc);
    var ts := TermsOf(np);
    assert items[0] in Distinct(items);
    NamedNoStar(oc);
    forall i | 0 <= i < |ts| ensures '*' !in ts[i] {
      TermHasNoStar(np[i].0, np[i].1);
    }
    JoinSplitRoundTrip(ts);
  }

  /**
   * `processRateLaw`: walks the grouped participants in order, emitting a
   * species reference for each, collecting their clean ids into the new
   * `nameList_` when `mobjEnz` is set (the list is cleared either way),
   * and accumulating the rate expression.
   */
  method ProcessRateLaw(oc: seq<(Ref, nat)>, role: Role, mobjEnz: bool, constTrue: seq<string>)
    returns (rateLaw: string, nameList: seq<string>, refs: seq<SpeciesRef>)
    ensures rateLaw == RateExpr(oc)
    ensures nameList == if mobjEnz then IdsOf(Named(oc)) else []
    ensures refs == RefsOf(Named(oc), role, constTrue)
  {
    ghost var np := Named(oc);
    rateLaw := "";
    nameList := [];
    refs := [];
    for k := 0 to |oc|
      invariant rateLaw == JoinStar(TermsOf(np[..k]))
      invariant k > 0 ==> |rateLaw| > 0
      invariant nameList == if mobjEnz then IdsOf(np[..k]) else []
      invariant refs == RefsOf(np[..k], role, constTrue)
    {
      var value, count := oc[k].0, oc[k].1;
      var cleanName := ConvertSpecialChar(RawId(value));
      EscapedIsCleanId(value, cleanName);
      cleanName := IdBeginWith(cleanName);
      if mobjEnz {
        nameList := nameList + [cleanName];
      }
      if role == Mod {
        refs := refs + [SpeciesRef(cleanName, None, None)];
      } else {
        refs := refs + [SpeciesRef(cleanName, Some(count), Some(cleanName in constTrue))];
      }
      var term := if count == 1 then cleanName else cleanName + "^" + NatToString(count);
      if rateLaw == "" {
        rateLaw := term;
      } else {
        rateLaw := rateLaw + "*" + term;
      }
      StepPrefix(np, k, role, constTrue);
      JoinStep(TermsOf(np[..k]), term);
    }
    assert np[..|oc|] == np;
  }

  /** Appending a factor: the first one stands alone, later ones follow a `*`. */
  lemma JoinStep(ts: seq<string>, t: string)
    requires |ts| > 0 ==> |JoinStar(ts)| > 0
    ensures JoinStar(ts + [t]) == if JoinStar(ts) == "" then t else JoinStar(ts) + "*" + t
  {
    assert (ts + [t])[..|ts|] == ts;
  }

  lemma EscapedIsCleanId(r: Ref, e: string)
    requires e == ApplyTable(IdTable, RawId(r))
    ensures |e| > 0 && IdBeginWith(e) == CleanId(r) && |CleanId(r)| > 0
  {
    CleanIdWhole(r);
  }

  lemma StepPrefix(np: seq<(string, nat)>, k: nat, role: Role, constTrue: seq<string>)
    requires k < |np|
    ensures TermsOf(np[..k + 1]) == TermsOf(np[..k]) + [Term(np[k].0, np[k].1)]
    ensures IdsOf(np[..k + 1]) == IdsOf(np[..k]) + [np[k].0]
    ensures RefsOf(np[..k + 1], role, constTrue) == RefsOf(np[..k], role, constTrue) + [RefOf(np[k], role, constTrue)]
  {
  }

  /**
   * What `getSubprd` returns: `count` is `Some((n, expr))` for the tuple it
   * returns and `None` when it falls off the end (an empty product or
   * modifier list), which the caller then fails to unpack.
   */
  datatype Subprd = Subprd(count: Option<(nat, string)>, nameList: seq<string>, refs: seq<SpeciesRef>)

  function GetSubprdSpec(role: Role, items: seq<Ref>, mobjEnz: bool, constTrue: seq<string>,
                         nameList: seq<string>): Subprd
  {
    if items == [] then
      Subprd(if role == Sub then Some((0, " ")) else None, nameList, [])
    else
      var oc := Counter(items);
      Subprd(Some((|items|, RateExpr(oc))), if mobjEnz then IdsOf(Named(oc)) else [],
             RefsOf(Named(oc), role, constTrue))
  }

  /** `getSubprd`: groups the list and runs `processRateLaw` on it when it is nonempty. */
  method GetSubprd(role: Role, items: seq<Ref>, mobjEnz: bool, constTrue: seq<string>,
                   nameList: seq<string>) returns (r: Subprd)
    ensures r == GetSubprdSpec(role, items, mobjEnz, constTrue, nameList)
  {
    var oc := Counter(items);
    if role == Sub {
      if items != [] {
        var rateLaw, names, refs := ProcessRateLaw(oc, role, mobjEnz, constTrue);
        return Subprd(Some((|items|, rateLaw)), names, refs);
      } else {
        return Subprd(Some((0, " ")), nameList, []);
      }
    } else {
      if items != [] {
        var rateLaw, names, refs := ProcessRateLaw(oc, role, mobjEnz, constTrue);
        return Subprd(Some((|items|, rateLaw)), names, refs);
      }
      return Subprd(None, nameList, []);
    }
  }

  /**
   * The count `getSubprd` reports is the list's full length, repeats
   * included; an empty substrate list gives `(0, " ")` and an empty
   * product or modifier list gives nothing.
   */
  lemma GetSubprdCount(role: Role, items: seq<Ref>, mobjEnz: bool, constTrue: seq<string>,
                       nameList: seq<string>)
    ensures var r := GetSubprdSpec(role, items, mobjEnz, constTrue, nameList);
      (items != [] ==>
         r.count.Some? && r.count.value.0 == |items| && r.count.value.0 == SumCounts(Counter(items))) &&
      (items == [] && role == Sub ==> r.count == Some((0, " "))) &&
      (items == [] && role != Sub ==> r.count.None?) &&
      (items == [] ==> r.nameList == nameList && r.refs == [])
  {
    CounterTotal(items);
  }

  /**
   * A nonempty list is always found: the count and rate expression of the
   * whole list, and with `mobjEnz` a new name list headed by the clean id
   * of the list's first element.
   */
  lemma GetSubprdFound(role: Role, items: seq<Ref>, mobjEnz: bool, constTrue: seq<string>,
                       nameList: seq<string>)
    requires items != []
    ensures var r := GetSubprdSpec(role, items, mobjEnz, constTrue, nameList);
      r.count == Some((|items|, RateExpr(Counter(items)))) &&
      (!mobjEnz ==> r.nameList == []) &&
      (mobjEnz ==> |r.nameList| == |Distinct(items)| && |r.nameList| > 0 && r.nameList[0] == CleanId(items[0]))
  {
    DistinctHead(items);
  }

  /**
   * One reference per distinct participant, in first-occurrence order:
   * substrates and products carry their occurrence count and are constant
   * exactly when their id is in `constTrue`; modifiers carry neither.
   */
  lemma GetSubprdRefs(role: Role, items: seq<Ref>, mobjEnz: bool, constTrue: seq<string>,
                      nameList: seq<string>)
    ensures var r := GetSubprdSpec(role, items, mobjEnz, constTrue, nameList);
      var d := Distinct(items);
      |r.refs| == |d| &&
      forall i :: 0 <= i < |d| ==>
        r.refs[i].species == CleanId(d[i]) &&
        (role == Mod ==> r.refs[i].stoichiometry.None? && r.refs[i].constant.None?) &&
        (role != Mod ==> r.refs[i].stoichiometry == Some(Count(items, d[i])) &&
                         (r.refs[i].constant == Some(true) <==> CleanId(d[i]) in constTrue))
  {
  }

  /**
   * `listofname`: the escaped `name_id_index_` of each distinct element
   * (without the digit guard); it becomes the new `nameList_` when
   * `mobjEnz` is set and otherwise only clears it.
   */
  function ListOfName(items: seq<Ref>, mobjEnz: bool): (names: seq<string>)
    ensures mobjEnz ==> |names| == |Distinct(items)|
  {
    if mobjEnz then
      var d := Distinct(items);
      seq(|d|, i requires 0 <= i < |d| => ApplyTable(IdTable, RawId(d[i])))
    else []
  }
}
