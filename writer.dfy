/**
 * The writer as it runs: a document object whose lists (libsbml's
 * `ListOf...` containers) and whose shared tables (`groupInfo`,
 * `spe_constTrue`, `nameList_`) the passes fill in place, one object of
 * the MOOSE model at a time. Each pass method is proved to leave the
 * document in the state the corresponding pass function computes, so
 * every property proved about the functions holds of the document.
 */
module Writer {
  import opened Wrappers
  import opened MooseTree
  import opened Units
  import opened Elements
  import opened Sbml
  import opened Passes
  import opened Seqs
  import opened Compartments
  import opened Pools
  import opened Functions
  import opened Groups
  import Channels
  import Reactions
  import Enzymes
  import opened Export

  class SbmlDocument {
    var unitDefs: seq<UnitDef>
    var compartments: seq<Compartment>
    var species: seq<Species>
    var reactions: seq<Reaction>
    var rules: seq<Rule>
    var groups: seq<Group>
    var groupInfo: GroupTable
    var constTrue: seq<string>
    var nameList: seq<string>

    /** The document and the shared tables as one value. */
    function Snapshot(): State
      reads this
    {
      State(unitDefs, compartments, species, reactions, rules, groups, groupInfo, constTrue, nameList)
    }

    constructor(st: State)
      ensures Snapshot() == st
    {
      unitDefs, compartments, species, reactions := st.unitDefs, st.compartments, st.species, st.reactions;
      rules, groups, groupInfo := st.rules, st.groups, st.groupInfo;
      constTrue, nameList := st.constTrue, st.nameList;
    }

    /** Every field set from `st`: the effect of a loop body modelled as a function. */
    method Load(st: State)
      modifies this
      ensures Snapshot() == st
    {
      unitDefs, compartments, species, reactions := st.unitDefs, st.compartments, st.species, st.reactions;
      rules, groups, groupInfo := st.rules, st.groups, st.groupInfo;
      constTrue, nameList := st.constTrue, st.nameList;
    }

    /** `groupName in groupInfo`: the position of the group in the table, or its length. */
    method FindGroup(g: GroupNode) returns (k: nat)
      ensures k == KeyIndex(groupInfo, g)
      ensures k < |groupInfo| <==> HasKey(groupInfo, g)
    {
      k := 0;
      while k < |groupInfo| && groupInfo[k].0 != g
        invariant k <= |groupInfo|
        invariant forall j :: 0 <= j < k ==> groupInfo[j].0 != g
      {
        k := k + 1;
      }
    }

    /** `groupInfo[g].append(id)` when the group is known, `groupInfo[g] = [id]` otherwise. */
    method FileMember(g: GroupNode, id: string)
      modifies this
      ensures Snapshot() == old(Snapshot()).(groupInfo := AddMember(old(groupInfo), g, id))
    {
      var k := FindGroup(g);
      if k < |groupInfo| {
        groupInfo := groupInfo[k := (g, groupInfo[k].1 + [id])];
      } else {
        groupInfo := groupInfo + [(g, [id])];
      }
    }

    /** `if grp not in groupInfo: groupInfo[grp] = []`. */
    method PreregisterGroup(g: GroupNode)
      modifies this
      ensures Snapshot() == old(Snapshot()).(groupInfo := Preregister(old(groupInfo), g))
    {
      var k := FindGroup(g);
      if k == |groupInfo| {
        groupInfo := groupInfo + [(g, [])];
      }
    }

    /** The unit definition created unless one with its id already exists. */
    method RegisterUnit(d: UnitDef)
      modifies this
      ensures Snapshot() == old(Snapshot()).(unitDefs := Register(old(unitDefs), d))
    {
      var found := FindUnit(unitDefs, d.id);
      if !found {
        unitDefs := unitDefs + [d];
      }
    }

    /**
     * `parmUnit(order)`: the rate-constant unit of that order, created
     * unless already defined; its id is returned.
     */
    method ParmUnit(order: nat) returns (unitId: string)
      modifies this
      ensures unitId == OrderDef(order).id && HasId(unitDefs, unitId)
      ensures Snapshot() == old(Snapshot()).(unitDefs := Register(old(unitDefs), OrderDef(order)))
    {
      RegisterUnit(OrderDef(order));
      unitId := OrderName(order);
    }

    /** `KmUnit()`: `mmole_per_litre`, created unless already defined. */
    method KmUnit() returns (unitId: string)
      modifies this
      ensures unitId == KmDef.id && HasId(unitDefs, unitId)
      ensures Snapshot() == old(Snapshot()).(unitDefs := Register(old(unitDefs), KmDef))
    {
      RegisterUnit(KmDef);
      unitId := "mmole_per_litre";
    }

    /** `permeablUnit()`: `litre_per_mmole_per_second`, created unless already defined. */
    method PermeablUnit() returns (unitId: string)
      modifies this
      ensures unitId == PermeabilityDef.id && HasId(unitDefs, unitId)
      ensures Snapshot() == old(Snapshot()).(unitDefs := Register(old(unitDefs), PermeabilityDef))
    {
      RegisterUnit(PermeabilityDef);
      unitId := "litre_per_mmole_per_second";
    }

    /**
     * `writeCompt`: the group table is emptied, then each compartment is
     * written and its groups entered in the table, unless an endoplasmic
     * mesh names a surround not written yet.
     */
    method WriteCompartments(cs: seq<Compt>) returns (found: bool, err: string)
      modifies this
      ensures (Snapshot(), found, err) == WriteComptSpec(old(Snapshot()), cs)
    {
      groupInfo := [];
      ghost var st0 := Snapshot();
      var ids: set<Ref> := {};
      var i := 0;
      while i < |cs|
        invariant i <= |cs|
        invariant ComptsFrom(Snapshot(), ids, cs, i) == ComptsFrom(st0, {}, cs, 0)
      {
        ghost var before, ids0 := Snapshot(), ids;
        var c := cs[i];
        ids := ids + {c.ref};
        ComptsFromStep(before, ids0, cs, i);
        if c.mesh.EndoMesh? && c.mesh.surround !in ids {
          found, err := false, EndoError;
          return;
        }
        var rec := ComptRecord(c, SurroundId(c));
        compartments := compartments + [rec];
        ghost var gi0 := groupInfo;
        var j := 0;
        while j < |c.groups|
          invariant j <= |c.groups|
          invariant unitDefs == before.unitDefs && compartments == before.compartments + [rec]
          invariant species == before.species && reactions == before.reactions && rules == before.rules
          invariant groups == before.groups && constTrue == before.constTrue && nameList == before.nameList
          invariant PreregisterAll(groupInfo, c.groups, j) == PreregisterAll(gi0, c.groups, 0)
        {
          PreregisterGroup(c.groups[j]);
          j := j + 1;
        }
        ComptWritten(before, c, rec, groupInfo);
        i := i + 1;
      }
      found, err := |cs| > 0, "";
    }

    /** The `Function` children of a buffered pool: its id once for each one without inputs. */
    method AddZeroInputEntries(inputs: seq<nat>, id: string)
      modifies this
      ensures Snapshot() == old(Snapshot()).(constTrue := old(constTrue) + ZeroInputEntries(inputs, id))
    {
      var i := 0;
      while i < |inputs|
        invariant i <= |inputs|
        invariant Snapshot() == old(Snapshot()).(constTrue := old(constTrue) + ZeroInputEntries(inputs[..i], id))
      {
        assert inputs[..i + 1][..i] == inputs[..i];
        if inputs[i] == 0 {
          constTrue := constTrue + [id];
        }
        i := i + 1;
      }
      assert inputs[..i] == inputs;
    }

    /** The loop body of `writeSpecies` for one pool. */
    method WriteSpeciesOne(p: Pool) returns (status: Status)
      modifies this
      ensures (Snapshot(), status) == SpeciesStep(old(Snapshot()), p)
    {
      if IsXfer(p) {
        return Running;
      }
      if p.compartment.None? {
        return Stopped;
      }
      if CplxWithoutInfo(p) {
        return Raised;
      }
      ghost var st := Snapshot();
      var id := CleanId(p.ref);
      var rec := SpeciesRecord(p, p.compartment.value);
      species := species + [rec];
      if p.buffered {
        if !p.hasFunc {
          constTrue := constTrue + [id];
        } else {
          AddZeroInputEntries(p.functionInputs, id);
        }
      }
      ghost var added := ConstTrueAdded(p, id);
      assert constTrue == st.constTrue + added;
      var g := FiledGroup(p.info, p.up);
      if g.Some? {
        FileMember(g.value, id);
      }
      SpeciesWritten(st, p, rec, added, g, id);
      status := Running;
    }

    /** `writeSpecies`: one pool after another, ending early at the first `-2`. */
    method WriteSpecies(pools: seq<Pool>) returns (status: Status)
      modifies this
      ensures (Snapshot(), status) == WriteSpeciesSpec(old(Snapshot()), pools)
    {
      var i := 0;
      while i < |pools|
        invariant i <= |pools|
        invariant Pass(SpeciesStep, Snapshot(), pools, i) == WriteSpeciesSpec(old(Snapshot()), pools)
      {
        PassStep(SpeciesStep, Snapshot(), pools, i);
        status := WriteSpeciesOne(pools[i]);
        if status != Running {
          return;
        }
        i := i + 1;
      }
      status := Running;
    }

    /**
     * `writeFunc`: the loop carries `foundFunc`, `fName` and `expr` from one
     * function to the next and writes a rule once any function was found.
     */
    method WriteFunctions(fs: seq<Func>)
      modifies this
      ensures Snapshot() == WriteFuncSpec(old(Snapshot()), fs)
    {
      var rs := rules;
      var foundFunc, fName, expr := false, "", "";
      ghost var target := rs + FuncRules(NoFunc, fs, 0);
      var i := 0;
      while i < |fs|
        invariant i <= |fs|
        invariant unchanged(this)
        invariant target == rs + FuncRules(FuncCarry(foundFunc, fName, expr), fs, i)
      {
        ghost var c, rs0 := FuncCarry(foundFunc, fName, expr), rs;
        foundFunc, fName, expr := FuncIteration(foundFunc, fName, expr, fs[i]);
        ghost var next := FuncCarry(foundFunc, fName, expr);
        FuncRulesStep(c, fs, i);
        if foundFunc {
          rs := rs + [Rule(fName, expr)];
        }
        assert rs == rs0 + RuleOf(next);
        Assoc(rs0, RuleOf(next), FuncRules(next, fs, i + 1));
        i := i + 1;
      }
      assert FuncRules(FuncCarry(foundFunc, fName, expr), fs, i) == [];
      assert rs == target;
      rules := rs;
      assert Snapshot() == old(Snapshot()).(rules := target);
    }

    /**
     * A pass whose loop body is modelled as the function `step`: the
     * objects in order, ending early at the first step that does not run on.
     */
    method RunPass<E>(step: (State, E) -> (State, Status), es: seq<E>) returns (status: Status)
      modifies this
      ensures (Snapshot(), status) == Pass(step, old(Snapshot()), es, 0)
    {
      var i := 0;
      while i < |es|
        invariant i <= |es|
        invariant Pass(step, Snapshot(), es, i) == Pass(step, old(Snapshot()), es, 0)
      {
        PassStep(step, Snapshot(), es, i);
        var (next, s) := step(Snapshot(), es[i]);
        Load(next);
        if s != Running {
          return s;
        }
        i := i + 1;
      }
      status := Running;
    }

    /** The group assembly: one group per table entry, in the table's order. */
    method WriteGroups()
      modifies this
      ensures Snapshot() == WriteGroupsSpec(old(Snapshot()))
    {
      groups := AppendMapped(GroupRecord, groupInfo, groups);
    }
  }

  /** `for x in xs: ys.append(f(x))`. */
  method AppendMapped<A, B>(f: A -> B, xs: seq<A>, ys: seq<B>) returns (zs: seq<B>)
    ensures zs == ys + MapFrom(f, xs, 0)
  {
    ghost var all := MapFrom(f, xs, 0);
    zs := ys;
    var i := 0;
    while i < |xs|
      invariant i <= |xs|
      invariant zs == ys + all[..i]
    {
      TakeOneMore(all, i);
      zs := zs + [f(xs[i])];
      i := i + 1;
    }
    TakeAll(all);
  }

  /** One compartment of `ComptsFrom`: the error, or the next compartment written. */
  lemma ComptsFromStep(st: State, ids: set<Ref>, cs: seq<Compt>, k: nat)
    requires k < |cs|
    ensures var c := cs[k]; var ids' := ids + {c.ref};
      ComptsFrom(st, ids, cs, k) ==
        if c.mesh.EndoMesh? && c.mesh.surround !in ids' then (st, Some(EndoError))
        else ComptsFrom(ComptStep(st, c), ids', cs, k + 1)
  {
  }

  /** The state `ComptStep` computes. */
  lemma ComptWritten(st: State, c: Compt, rec: Compartment, gi: GroupTable)
    requires rec == ComptRecord(c, SurroundId(c)) && gi == PreregisterAll(st.groupInfo, c.groups, 0)
    ensures ComptStep(st, c) == st.(compartments := st.compartments + [rec], groupInfo := gi)
  {
  }

  /**
   * The head of `writeFunc`'s loop body: `foundFunc`, `fName` and `expr`
   * after one more function.
   */
  method FuncIteration(foundFunc: bool, fName: string, expr: string, f: Func)
    returns (found': bool, fName': string, expr': string)
    ensures FuncCarry(found', fName', expr') == FuncStep(FuncCarry(foundFunc, fName, expr), f)
  {
    found', fName', expr' := foundFunc, fName, expr;
    if OnMesh(f) {
      if f.valueOut != [] {
        fName' := InputIdOf(f.valueOut[0]);
        if f.expr != "" {
          found' := true;
          expr' := SubstituteInputs(f.expr, f.inputs);
        } else {
          expr' := f.expr;
        }
      }
    } else {
      found' := true;
      fName' := InputIdOf(f.parent);
      expr' := SubstituteInputs(f.expr, f.inputs);
    }
  }

  /** One function of `FuncRules`. */
  lemma FuncRulesStep(c: FuncCarry, fs: seq<Func>, k: nat)
    requires k < |fs|
    ensures FuncRules(c, fs, k) == RuleOf(FuncStep(c, fs[k])) + FuncRules(FuncStep(c, fs[k]), fs, k + 1)
  {
  }

  /** The state `SpeciesStep` computes for a pool that is written. */
  lemma SpeciesWritten(st: State, p: Pool, rec: Species, added: seq<string>, g: Option<GroupNode>, id: string)
    requires !IsXfer(p) && p.compartment.Some? && !CplxWithoutInfo(p)
    requires id == CleanId(p.ref) && rec == SpeciesRecord(p, p.compartment.value)
    requires added == ConstTrueAdded(p, id) && g == FiledGroup(p.info, p.up)
    ensures SpeciesStep(st, p) ==
      (st.(species := st.species + [rec], constTrue := st.constTrue + added,
           groupInfo := if g.Some? then AddMember(st.groupInfo, g.value, id) else st.groupInfo),
       Running)
  {
  }

  /**
   * The passes of `mooseWriteSBML` on a fresh document: compartments,
   * then (when one was written) species, functions, channels, reactions
   * and enzymes, then the groups. `doc` is `None` when a pass raised;
   * otherwise it is the finished document.
   */
  method WriteDocument(m: Model, sceneItems: bool) returns (found: bool, err: string, doc: Option<State>)
    ensures (found, err) == (WriteComptSpec(Initial, m.compts).1, WriteComptSpec(Initial, m.compts).2)
    ensures found ==> doc == (var r := RunPasses(sceneItems, WriteComptSpec(Initial, m.compts).0, m);
                              if r.Some? then Some(WriteGroupsSpec(r.value)) else None)
    ensures !found ==> doc.None?
  {
    var d := new SbmlDocument(Initial);
    found, err := d.WriteCompartments(m.compts);
    doc := None;
    if !found {
      return;
    }
    ghost var st1 := d.Snapshot();
    var s := d.WriteSpecies(m.pools);
    if s == Raised {
      return;
    }
    d.WriteFunctions(m.funcs);
    s := d.RunPass(Channels.ChanStep, m.chans);
    if s == Raised {
      return;
    }
    s := d.RunPass((st, r) => Reactions.ReacStep(sceneItems, st, r), m.reacs);
    if s == Raised {
      return;
    }
    s := d.RunPass(Enzymes.EnzStep, m.enzs);
    if s == Raised {
      return;
    }
    assert RunPasses(sceneItems, st1, m) == Some(d.Snapshot());
    d.WriteGroups();
    doc := Some(d.Snapshot());
  }
}
