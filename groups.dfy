/**
 * The group records `mooseWriteSBML` emits after the last pass: one SBML
 * group (Groups package, kind `collection`) per entry of the group table,
 * in the table's order, whether or not any member was ever filed under it.
 * The group's id is its raw name, digit-guarded but not escaped, followed
 * by the index suffix; its members are the ids filed under it.
 */
module Groups {
  import opened Wrappers
  import opened Strings
  import opened Sanitize
  import opened MooseTree
  import opened Sbml
  import opened Seqs
  import opened Compartments

  /** `idBeginWith` of the group's raw name. */
  function GroupName(g: GroupNode): string
  {
    IdBeginWith(g.ref.name)
  }

  function GroupId(g: GroupNode): string
  {
    GroupName(g) + IndexSuffix(g.ref)
  }

  /** The position and size of the annotator, written only when height and width are both nonzero. */
  function Layout(info: Option<Info>): Option<(real, real, real, real)>
  {
    if info.Some? && info.value.height != 0.0 && info.value.width != 0.0 then
      Some((info.value.x, info.value.y, info.value.width, info.value.height))
    else None
  }

  /**
   * The `<moose:GroupAnnotation>`: the group's compartment; the parent
   * group's name when the parent is a `Neutral`; the parent's raw id, or
   * the compartment's when the parent is not a `Neutral`; layout and notes.
   */
  function GroupAnnotationOf(g: GroupNode): GroupAnnotation
  {
    GroupAnnotation(RawId(g.compartment),
                    if g.parentIsNeutral then Some(g.parent.name) else None,
                    if g.parentIsNeutral then RawId(g.parent) else RawId(g.compartment),
                    Layout(g.info), RawNotes(g.info))
  }

  /** The group written for one table entry. */
  function GroupRecord(entry: (GroupNode, seq<string>)): Group
  {
    Group(GroupId(entry.0), GroupName(entry.0), "collection", GroupAnnotationOf(entry.0), entry.1)
  }

  /** The group assembly at the end of `mooseWriteSBML`. */
  function WriteGroupsSpec(st: State): State
  {
    st.(groups := st.groups + MapFrom(GroupRecord, st.groupInfo, 0))
  }

  /**
   * A group id never begins with a digit and ends with the index suffix;
   * it is the raw `name_id_index_` exactly when the name does not begin
   * with a digit.
   */
  lemma GroupIdShape(g: GroupNode)
    ensures var id := GroupId(g);
      |id| > 0 && !IsDigit(id[0]) &&
      id[|id| - |IndexSuffix(g.ref)|..] == IndexSuffix(g.ref) &&
      (id == RawId(g.ref) <==> !IsDigit(g.ref.name[0]))
  {
    var n, s := GroupName(g), IndexSuffix(g.ref);
    assert GroupId(g)[0] == n[0];
    assert (n + s)[|n + s| - |s|..] == s;
    if IsDigit(g.ref.name[0]) {
      assert |GroupId(g)| == |RawId(g.ref)| + 1;
    }
  }

  /**
   * Where the annotation points: the compartment always; the parent group
   * exactly when the parent is a `Neutral`, otherwise the compartment
   * again. Layout and notes come only from an existing annotator.
   */
  lemma GroupAnnotationFields(g: GroupNode)
    ensures var a := GroupAnnotationOf(g);
      a.compartment == RawId(g.compartment) &&
      (a.parentGroup.Some? <==> g.parentIsNeutral) &&
      (g.parentIsNeutral ==> a.parentGroup == Some(g.parent.name) && a.parent == RawId(g.parent)) &&
      (!g.parentIsNeutral ==> a.parent == a.compartment) &&
      (a.layout.Some? ==> g.info.Some? && a.layout.value.2 != 0.0 && a.layout.value.3 != 0.0) &&
      (a.notes.Some? <==> g.info.Some? && g.info.value.notes != "") &&
      (a.notes.Some? ==> a.notes.value == g.info.value.notes)
  {
  }

  /**
   * One group per table entry, in order, with that entry's members;
   * nothing but the group list changes.
   */
  lemma WriteGroupsEntries(st: State)
    ensures var st' := WriteGroupsSpec(st); var gi := st.groupInfo;
      st'.(groups := st.groups) == st &&
      |st'.groups| == |st.groups| + |gi| && st'.groups[..|st.groups|] == st.groups &&
      forall i :: 0 <= i < |gi| ==>
        var grp := st'.groups[|st.groups| + i];
        grp.id == GroupId(gi[i].0) && grp.kind == "collection" && grp.members == gi[i].1
  {
    var gs, gi := MapFrom(GroupRecord, st.groupInfo, 0), st.groupInfo;
    var st' := WriteGroupsSpec(st);
    assert st'.groups == st.groups + gs;
    AppendedAt(st.groups, gs);
    forall i | 0 <= i < |gi|
      ensures st'.groups[|st.groups| + i] == GroupRecord(gi[i])
    {
      assert gs[i - 0] == GroupRecord(gi[i]);
    }
  }

  /**
   * Every group in the table is emitted, with the members filed under it;
   * a group nothing was filed under is emitted with no members.
   */
  lemma GroupEmitted(st: State, h: GroupNode)
    requires HasKey(st.groupInfo, h)
    ensures var k := KeyIndex(st.groupInfo, h);
      WriteGroupsSpec(st).groups[|st.groups| + k] == GroupRecord((h, MembersOf(st.groupInfo, h)))
  {
    var k := KeyIndex(st.groupInfo, h);
    var gs := MapFrom(GroupRecord, st.groupInfo, 0);
    assert WriteGroupsSpec(st).groups[|st.groups| + k] == gs[k];
  }
}
