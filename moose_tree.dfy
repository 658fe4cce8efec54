/**
 * The MOOSE object tree as the SBML writer sees it, given as input
 * records: every element is named by its name, its numeric id and its
 * data index, and every neighbour list the writer queries is a field.
 * This module also defines the ids the writer derives from elements.
 */
module MooseTree {
  import opened Wrappers
  import opened Strings
  import opened Sanitize

  /** Element names are never empty (`idBeginWith` reads the first character). */
  type Name = s: string | |s| > 0 witness "a"

  /** An element: name, `getId().value` and `getDataIndex()`. */
  datatype Ref = Ref(name: Name, id: nat, dataIndex: nat)

  /** The fields of an element's `info` annotator the writer consults. */
  datatype Info = Info(x: real, y: real, width: real, height: real, notes: string)

  /**
   * A `Neutral` element (a group). `compartment` is what the tree's
   * compartment lookup returns for it; `parent` is its parent element and
   * `parentIsNeutral` says whether that parent is itself a `Neutral`.
   */
  datatype GroupNode = GroupNode(ref: Ref, compartment: Ref, parent: Ref,
                                 parentIsNeutral: bool, info: Option<Info>)

  /**
   * One ancestor of an element; an element's chain lists them nearest
   * first and stops below the MOOSE root `/`, so a `Neutral` with no
   * compartment above it (the root itself) is never in a chain and an
   * element whose walk would end there belongs to no group. `MeshAnc`
   * stands for the mesh classes the writer stops at (CubeMesh, CylMesh,
   * EndoMesh, NeuroMesh), with its `info` annotator when it has one;
   * every other class is `OtherAnc`.
   */
  datatype Ancestor = GroupAnc(node: GroupNode) | MeshAnc(ref: Ref, info: Option<Info>) | OtherAnc(ref: Ref)

  /** The `info` annotator of an ancestor, when it has one. */
  function InfoOf(a: Ancestor): Option<Info>
  {
    match a
    case GroupAnc(g) => g.info
    case MeshAnc(_, info) => info
    case OtherAnc(_) => None
  }

  predicate IsContainer(a: Ancestor)
  {
    !a.OtherAnc?
  }

  /**
   * `getGroupinfo` / `findGroup_compt`: the nearest ancestor that is a
   * `Neutral` or one of the listed meshes.
   */
  function NearestContainer(up: seq<Ancestor>): (r: Option<Ancestor>)
    ensures r.Some? <==> exists k :: 0 <= k < |up| && IsContainer(up[k])
    ensures r.Some? ==> IsContainer(r.value)
    ensures r.Some? ==>
      exists k :: 0 <= k < |up| && up[k] == r.value && forall j :: 0 <= j < k ==> !IsContainer(up[j])
    decreases |up|
  {
    if up == [] then None
    else if IsContainer(up[0]) then Some(up[0])
    else
      var r := NearestContainer(up[1..]);
      assert forall j :: 0 <= j < |up[1..]| ==> up[1..][j] == up[j + 1];
      r
  }

  /** The group an element belongs to: its nearest container, when that is a `Neutral`. */
  function GroupOf(up: seq<Ancestor>): Option<GroupNode>
  {
    match NearestContainer(up)
    case Some(GroupAnc(g)) => Some(g)
    case _ => None
  }

  /** The `_<id>_<dataIndex>_` suffix. */
  function IndexSuffix(r: Ref): (s: string)
    ensures forall i :: 0 <= i < |s| ==> IndexChar(s[i])
    ensures |s| > 0 && s[0] == '_'
  {
    "_" + NatToString(r.id) + "_" + NatToString(r.dataIndex) + "_"
  }

  /** The `_<id>_<dataIndex>` part of the suffix, without its last underscore. */
  function IndexStem(r: Ref): (s: string)
    ensures forall i :: 0 <= i < |s| ==> IndexChar(s[i])
    ensures s + "_" == IndexSuffix(r)
  {
    "_" + NatToString(r.id) + "_" + NatToString(r.dataIndex)
  }

  /** `name_id_index_`, unescaped: how compartments are referred to from species and reactions. */
  function RawId(r: Ref): string
  {
    r.name + IndexSuffix(r)
  }

  /**
   * The SBML id of an element: the id-escaped name, the index suffix, and
   * a leading `_` when the result would begin with a digit.
   */
  function CleanId(r: Ref): string
  {
    IdBeginWith(ApplyTable(IdTable, r.name) + IndexSuffix(r))
  }

  /**
   * The id of a reaction the writer derives from an element: the escaped
   * name, the index suffix and a fixed tag, digit-guarded. The explicit
   * enzyme's two reactions use the tags `Complex_formation_` and
   * `Product_formation_`.
   */
  function TaggedId(r: Ref, tag: string): string
  {
    IdBeginWith(ApplyTable(IdTable, r.name) + IndexSuffix(r) + tag)
  }

  /** The SBML name of an element: the name-escaped name, digit-guarded. */
  function DisplayName(r: Ref): string
  {
    IdBeginWith(ApplyTable(NameTable, r.name))
  }

  /** A clean id has only legal characters and keeps `&` inside `&#176`. */
  lemma CleanIdLegal(r: Ref)
    ensures IdLegal(CleanId(r))
  {
    var e := ApplyTable(IdTable, r.name);
    var s := IndexSuffix(r);
    IdTableLegal(r.name);
    IndexCharsLegal(s);
    IdLegalConcat(e, s);
    IndexCharsLegal("_");
    IdLegalConcat("_", e + s);
    var c := CleanId(r);
    assert c == e + s || c == "_" + (e + s);
  }

  /** A clean id never contains `*`, the separator of rate-expression factors. */
  lemma CleanIdNoStar(r: Ref)
    ensures '*' !in CleanId(r)
  {
    CleanIdLegal(r);
    assert '*' in IdForbidden;
  }

  /** A clean id ends in the element's index suffix. */
  lemma CleanIdSuffix(r: Ref)
    ensures var c := CleanId(r); c[|c| - |IndexSuffix(r)|..] == IndexSuffix(r)
  {
    var e := ApplyTable(IdTable, r.name);
    var s := IndexSuffix(r);
    var c := CleanId(r);
    assert c == e + s || c == "_" + (e + s);
    EndsWith(c, e, s);
  }

  lemma EndsWith(c: string, e: string, s: string)
    requires c == e + s || c == "_" + (e + s)
    ensures c[|c| - |s|..] == s
  {
    assert c[|c| - |s|..] == (e + s)[|e|..];
  }

  lemma IdLegalConcat(a: string, b: string)
    requires IdLegal(a) && IdLegal(b)
    ensures IdLegal(a + b)
  {
    AmpConcat(a, b);
  }

  lemma IndexCharsLegal(s: string)
    requires forall i :: 0 <= i < |s| ==> IndexChar(s[i])
    ensures IdLegal(s)
  {
  }

  /**
   * `processRateLaw` and `writeFunc` escape the name together with its
   * index suffix; the result is still the element's clean id.
   */
  lemma CleanIdWhole(r: Ref)
    ensures IdBeginWith(ApplyTable(IdTable, r.name + IndexSuffix(r))) == CleanId(r)
  {
    IdTableSuffix(r.name, IndexSuffix(r));
  }

  /**
   * A clean id determines the element's numeric id and data index, whatever
   * the names: the index suffix is read off the right end of the id, where
   * each digit run is closed on the left by an `_`. Elements that also
   * share their name are therefore the same element.
   */
  lemma CleanIdInjective(a: Ref, b: Ref)
    requires CleanId(a) == CleanId(b)
    ensures a.id == b.id && a.dataIndex == b.dataIndex
    ensures a.name == b.name ==> a == b
  {
    var c := CleanId(a);
    var sa, sb := IndexSuffix(a), IndexSuffix(b);
    CleanIdSuffix(a);
    CleanIdSuffix(b);
    assert c == c[..|c| - |sa|] + sa;
    assert c == c[..|c| - |sb|] + sb;
    SuffixFromRight(c[..|c| - |sa|], c[..|c| - |sb|], a, b);
  }

  /** Two ids that end in index suffixes end in the same one. */
  lemma SuffixFromRight(ha: string, hb: string, a: Ref, b: Ref)
    requires ha + IndexSuffix(a) == hb + IndexSuffix(b)
    ensures a.id == b.id && a.dataIndex == b.dataIndex
  {
    var ia, ib := NatToString(a.id), NatToString(b.id);
    var xa, xb := NatToString(a.dataIndex), NatToString(b.dataIndex);
    var c := ha + IndexSuffix(a);
    var w := c[..|c| - 1];
    assert w == (ha + "_" + ia) + "_" + xa;
    assert w == (hb + "_" + ib) + "_" + xb;
    DigitRunSplitRight(ha + "_" + ia, hb + "_" + ib, xa, xb);
    DigitRunSplitRight(ha, hb, ia, ib);
    NatToStringInjective(a.id, b.id);
    NatToStringInjective(a.dataIndex, b.dataIndex);
  }

  /** Read from the right, a run of digits ends at the last `_`. */
  lemma DigitRunSplitRight(p: string, q: string, x: string, y: string)
    requires forall i :: 0 <= i < |x| ==> IsDigit(x[i])
    requires forall i :: 0 <= i < |y| ==> IsDigit(y[i])
    requires p + "_" + x == q + "_" + y
    ensures p == q && x == y
  {
    var w := p + "_" + x;
    if |x| < |y| {
      UnderscoreAtRight(p, q, x, y);
      assert false;
    } else if |y| < |x| {
      UnderscoreAtRight(q, p, y, x);
      assert false;
    }
    assert p == w[..|p|] && q == w[..|q|];
    assert x == w[|p| + 1..] && y == w[|q| + 1..];
  }

  lemma UnderscoreAtRight(p: string, q: string, x: string, y: string)
    requires |x| < |y| && p + "_" + x == q + "_" + y
    ensures y[|y| - |x| - 1] == '_'
  {
    assert (p + "_" + x)[|p|] == '_';
  }

  /**
   * The raw compartment reference written into species and reactions is
   * the compartment's own id exactly when escaping and the digit guard
   * leave its name alone.
   */
  lemma RawIdMatchesCleanId(r: Ref)
    ensures RawId(r) == CleanId(r) <==>
      ApplyTable(IdTable, r.name) == r.name && !IsDigit(r.name[0])
  {
    if RawId(r) == CleanId(r) {
      RawIdOnlyIfUnchanged(r);
    } else if ApplyTable(IdTable, r.name) == r.name && !IsDigit(r.name[0]) {
      RawIdIfUnchanged(r);
    }
  }

  lemma RawIdIfUnchanged(r: Ref)
    requires ApplyTable(IdTable, r.name) == r.name && !IsDigit(r.name[0])
    ensures RawId(r) == CleanId(r)
  {
    var x := r.name + IndexSuffix(r);
    assert x[0] == r.name[0];
    assert CleanId(r) == IdBeginWith(x);
  }

  lemma RawIdOnlyIfUnchanged(r: Ref)
    requires RawId(r) == CleanId(r)
    ensures ApplyTable(IdTable, r.name) == r.name && !IsDigit(r.name[0])
  {
    var n := r.name;
    if n[0] == '_' {
      IdTableKeepsHead(n);
    }
    GuardedEqual(n, ApplyTable(IdTable, n), IndexSuffix(r));
  }

  /** `n + s == IdBeginWith(e + s)` forces `n == e` when escaping keeps a leading `_`. */
  lemma GuardedEqual(n: string, e: string, s: string)
    requires |n| > 0 && |e| > 0
    requires n[0] == '_' ==> e[0] == '_'
    requires n + s == IdBeginWith(e + s)
    ensures n == e && !IsDigit(n[0])
  {
    if IsDigit(e[0]) {
      HeadOf(n, s, e);
      assert false;
    }
    CancelSuffix(n, e, s);
  }

  lemma HeadOf(n: string, s: string, e: string)
    requires |n| > 0 && n + s == "_" + e + s
    ensures n[0] == '_'
  {
    assert (n + s)[0] == n[0];
  }

  lemma CancelSuffix(n: string, e: string, s: string)
    requires n + s == e + s
    ensures n == e
  {
    assert n == (n + s)[..|n|];
    assert e == (e + s)[..|e|];
  }
}
