/**
 * The SBML document the writer fills in, as plain records: compartments,
 * species, reactions with their kinetic laws, assignment rules, unit
 * definitions and groups (SBML Level 3 Version 1 Core with the Groups
 * package), together with the bookkeeping the passes share: the
 * group-membership table, the ids of constant species and the last name
 * list of the rate-law builder.
 */
module Sbml {
  import opened Wrappers
  import opened Sanitize
  import opened MooseTree
  import opened Units
  import opened RateLaw

  /** The `<moose:CompartmentAnnotation>` fields. */
  datatype ComptAnnotation = ComptAnnotation(mesh: string, surround: Option<string>,
                                             lengths: Option<(real, real)>, membraneBound: bool,
                                             notes: Option<string>)

  datatype Compartment = Compartment(id: string, name: string, constant: bool, size: real,
                                     outside: Option<string>, spatialDimensions: int,
                                     units: Option<string>, annotation: ComptAnnotation)

  /**
   * A species. `constant` is `None` when the writer never sets it;
   * `diffConst` and `motorConst` are the values of the annotation.
   */
  datatype Species = Species(id: string, name: string, initialConcentration: real,
                             compartment: string, boundaryCondition: bool, constant: Option<bool>,
                             units: string, hasOnlySubstanceUnits: bool, notes: Option<string>,
                             diffConst: real, motorConst: real)

  /** A local parameter of a kinetic law. */
  datatype Param = Param(id: string, value: real, units: string)

  /**
   * A reaction with its species references and kinetic law. A law whose
   * formula was never set has the empty formula.
   */
  datatype Reaction = Reaction(id: string, name: string, reversible: bool, notes: Option<string>,
                               reactants: seq<SpeciesRef>, products: seq<SpeciesRef>,
                               modifiers: seq<SpeciesRef>, formula: string, params: seq<Param>)

  datatype Rule = Rule(variable: string, formula: string)

  /** The `<moose:GroupAnnotation>` fields. */
  datatype GroupAnnotation = GroupAnnotation(compartment: string, parentGroup: Option<string>,
                                             parent: string, layout: Option<(real, real, real, real)>,
                                             notes: Option<string>)

  datatype Group = Group(id: string, name: string, kind: string, annotation: GroupAnnotation,
                         members: seq<string>)

  /** `groupInfo`: each group with its member ids, in insertion order. */
  type GroupTable = seq<(GroupNode, seq<string>)>

  /**
   * Everything the passes read and change: the document's lists, the
   * group table, `spe_constTrue` and `nameList_`.
   */
  datatype State = State(unitDefs: seq<UnitDef>, compartments: seq<Compartment>,
                         species: seq<Species>, reactions: seq<Reaction>, rules: seq<Rule>,
                         groups: seq<Group>, groupInfo: GroupTable, constTrue: seq<string>,
                         nameList: seq<string>)

  /** How a pass ended: ran to the end, returned `-2`, or raised. */
  datatype Status = Running | Stopped | Raised

  /** The ids of a list of reactions, in order. */
  function ReactionIds(rs: seq<Reaction>): (ids: seq<string>)
    ensures |ids| == |rs|
    ensures forall i :: 0 <= i < |rs| ==> ids[i] == rs[i].id
  {
    seq(|rs|, i requires 0 <= i < |rs| => rs[i].id)
  }

  lemma ReactionIdsAppend(a: seq<Reaction>, b: seq<Reaction>)
    ensures ReactionIds(a + b) == ReactionIds(a) + ReactionIds(b)
  {
  }

  /** A list that extends `a` by one reaction with id `id`. */
  lemma ReactionIdsPush(a: seq<Reaction>, b: seq<Reaction>, id: string)
    requires |b| == |a| + 1 && b[..|a|] == a && b[|a|].id == id
    ensures ReactionIds(b) == ReactionIds(a) + [id]
  {
    assert b == a + [b[|a|]];
    ReactionIdsAppend(a, [b[|a|]]);
  }

  /** The notes the writer attaches: the cleaned `info` notes, when they are not empty. */
  function NotesOf(info: Option<Info>): Option<string>
  {
    if info.Some? && info.value.notes != "" then Some(CleanNotes(info.value.notes)) else None
  }

  /** The position of `g` in the table, or the table's length when it is absent. */
  function KeyIndex(gi: GroupTable, g: GroupNode): (k: nat)
    ensures k <= |gi|
    ensures k < |gi| ==> gi[k].0 == g
    ensures forall j :: 0 <= j < k ==> gi[j].0 != g
    decreases |gi|
  {
    if gi == [] then 0
    else if gi[0].0 == g then 0
    else 1 + KeyIndex(gi[1..], g)
  }

  predicate HasKey(gi: GroupTable, g: GroupNode)
  {
    KeyIndex(gi, g) < |gi|
  }

  /** The members recorded for `g`; none when it is absent. */
  function MembersOf(gi: GroupTable, g: GroupNode): seq<string>
  {
    var k := KeyIndex(gi, g);
    if k < |gi| then gi[k].1 else []
  }

  /** The groups of the table, in order. */
  function Keys(gi: GroupTable): (ks: seq<GroupNode>)
    ensures |ks| == |gi|
    ensures forall i :: 0 <= i < |gi| ==> ks[i] == gi[i].0
  {
    seq(|gi|, i requires 0 <= i < |gi| => gi[i].0)
  }

  /** Each group occurs once, as in a dictionary. */
  predicate UniqueKeys(gi: GroupTable)
  {
    forall i, j :: 0 <= i < j < |gi| ==> gi[i].0 != gi[j].0
  }

  /** `d[g] = [id]` for a new group, `d[g].append(id)` for a known one. */
  function AddMember(gi: GroupTable, g: GroupNode, id: string): GroupTable
  {
    var k := KeyIndex(gi, g);
    if k < |gi| then gi[k := (g, gi[k].1 + [id])] else gi + [(g, [id])]
  }

  /** `writeCompt`'s `groupInfo[g] = []` for a group not yet in the table. */
  function Preregister(gi: GroupTable, g: GroupNode): GroupTable
  {
    if KeyIndex(gi, g) < |gi| then gi else gi + [(g, [])]
  }

  lemma {:induction false} KeyIndexOfAppend(gi: GroupTable, p: (GroupNode, seq<string>), h: GroupNode)
    ensures KeyIndex(gi + [p], h) == if KeyIndex(gi, h) < |gi| then KeyIndex(gi, h)
                                     else if p.0 == h then |gi| else |gi| + 1
    decreases |gi|
  {
    if gi != [] {
      assert (gi + [p])[1..] == gi[1..] + [p];
      if gi[0].0 != h {
        KeyIndexOfAppend(gi[1..], p, h);
      }
    }
  }

  lemma {:induction false} KeyIndexOfUpdate(gi: GroupTable, k: nat, p: (GroupNode, seq<string>), h: GroupNode)
    requires k < |gi| && gi[k].0 == p.0
    ensures KeyIndex(gi[k := p], h) == KeyIndex(gi, h)
    decreases |gi|
  {
    if gi[0].0 != h && k > 0 {
      assert gi[k := p][1..] == gi[1..][k - 1 := p];
      KeyIndexOfUpdate(gi[1..], k - 1, p, h);
    }
  }

  /**
   * Adding a member appends it to that group's list and leaves every
   * other group's list alone; the group is in the table afterwards.
   */
  lemma AddMemberMembers(gi: GroupTable, g: GroupNode, id: string, h: GroupNode)
    ensures HasKey(AddMember(gi, g, id), h) <==> (HasKey(gi, h) || h == g)
    ensures MembersOf(AddMember(gi, g, id), h) == if h == g then MembersOf(gi, g) + [id] else MembersOf(gi, h)
  {
    var k := KeyIndex(gi, g);
    if k < |gi| {
      KeyIndexOfUpdate(gi, k, (g, gi[k].1 + [id]), h);
      KeyIndexOfUpdate(gi, k, (g, gi[k].1 + [id]), g);
    } else {
      KeyIndexOfAppend(gi, (g, [id]), h);
      KeyIndexOfAppend(gi, (g, [id]), g);
    }
  }

  /**
   * Adding a member keeps the groups' order: a known group keeps its
   * place and a new one goes last.
   */
  lemma AddMemberKeys(gi: GroupTable, g: GroupNode, id: string)
    ensures Keys(AddMember(gi, g, id)) == if HasKey(gi, g) then Keys(gi) else Keys(gi) + [g]
  {
  }

  /** Pre-registering keeps every member list and puts the group in the table. */
  lemma PreregisterMembers(gi: GroupTable, g: GroupNode, h: GroupNode)
    ensures HasKey(Preregister(gi, g), h) <==> (HasKey(gi, h) || h == g)
    ensures MembersOf(Preregister(gi, g), h) == MembersOf(gi, h)
    ensures Keys(Preregister(gi, g)) == if HasKey(gi, g) then Keys(gi) else Keys(gi) + [g]
  {
    if !HasKey(gi, g) {
      KeyIndexOfAppend(gi, (g, []), h);
      KeyIndexOfAppend(gi, (g, []), g);
    }
  }

  /** Both updates keep every group in the table once. */
  lemma UpdatesKeepUniqueKeys(gi: GroupTable, g: GroupNode, id: string)
    requires UniqueKeys(gi)
    ensures UniqueKeys(AddMember(gi, g, id)) && UniqueKeys(Preregister(gi, g))
  {
    AddMemberKeys(gi, g, id);
    var a := AddMember(gi, g, id);
    assert forall i :: 0 <= i < |a| ==> a[i].0 == Keys(a)[i];
  }

  /** A group is in the table exactly when it is one of the table's keys. */
  lemma HasKeyInKeys(gi: GroupTable, h: GroupNode)
    ensures HasKey(gi, h) <==> h in Keys(gi)
  {
    if h in Keys(gi) {
      var i :| 0 <= i < |gi| && Keys(gi)[i] == h;
      assert gi[i].0 == h;
    }
  }

  /** Adding a member keeps the groups already in the table in their places, each once. */
  lemma AddMemberExtends(gi: GroupTable, g: GroupNode, id: string)
    ensures Keys(gi) <= Keys(AddMember(gi, g, id))
    ensures UniqueKeys(gi) ==> UniqueKeys(AddMember(gi, g, id))
  {
    AddMemberKeys(gi, g, id);
    if UniqueKeys(gi) {
      UpdatesKeepUniqueKeys(gi, g, id);
    }
  }

  /**
   * What every step of a pass keeps: the unit definitions are only
   * appended to and their ids stay unique, the compartments are left
   * alone, each group is in the table once, and the groups already there
   * keep their places.
   */
  predicate Extends(st: State, st': State)
  {
    st.unitDefs <= st'.unitDefs && st'.compartments == st.compartments &&
    (UniqueIds(st.unitDefs) ==> UniqueIds(st'.unitDefs)) &&
    (UniqueKeys(st.groupInfo) ==> UniqueKeys(st'.groupInfo)) &&
    Keys(st.groupInfo) <= Keys(st'.groupInfo)
  }

  lemma ExtendsTrans(a: State, b: State, c: State)
    requires Extends(a, b) && Extends(b, c)
    ensures Extends(a, c)
  {
  }

  /** A step that registers a unit and may file an id under a group extends the state. */
  lemma FilingExtends(st: State, st': State, d: UnitDef, g: Option<GroupNode>, id: string)
    requires st'.unitDefs == Register(st.unitDefs, d) || st'.unitDefs == st.unitDefs
    requires st'.compartments == st.compartments
    requires st'.groupInfo == if g.Some? then AddMember(st.groupInfo, g.value, id) else st.groupInfo
    ensures Extends(st, st')
  {
    if UniqueIds(st.unitDefs) {
      RegisterKeepsUnique(st.unitDefs, d);
    }
    if g.Some? {
      AddMemberExtends(st.groupInfo, g.value, id);
    }
  }

  /** The same for a step that may register two units in turn. */
  lemma FilingExtends2(st: State, st': State, d1: UnitDef, d2: UnitDef, g: Option<GroupNode>, id: string)
    requires st'.unitDefs == st.unitDefs || st'.unitDefs == Register(st.unitDefs, d1) ||
             st'.unitDefs == Register(Register(st.unitDefs, d1), d2)
    requires st'.compartments == st.compartments
    requires st'.groupInfo == if g.Some? then AddMember(st.groupInfo, g.value, id) else st.groupInfo
    ensures Extends(st, st')
  {
    if UniqueIds(st.unitDefs) {
      RegisterKeepsUnique(st.unitDefs, d1);
      RegisterKeepsUnique(Register(st.unitDefs, d1), d2);
    }
    if g.Some? {
      AddMemberExtends(st.groupInfo, g.value, id);
    }
  }
}
