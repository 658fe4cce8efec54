/**
 * `writeReac`: one SBML reaction per mass-action reaction that has both
 * substrates and products. The forward term uses the rate constant `Kf`
 * and the substrates; the backward term, written only when `Kb` is not
 * zero, uses `Kb` and the products. Each constant's unit follows the
 * order of its side (`parmUnit(n - 1)` for `n` participants, repeats
 * counted).
 *
 * The reaction is created before its substrates' compartment is looked
 * up: when that lookup fails, the reaction stays in the document with its
 * reactants but without products, parameters or formula, and the pass
 * ends (`return -2`).
 */
module Reactions {
  import opened Wrappers
  import opened Strings
  import opened Sanitize
  import opened MooseTree
  import opened Units
  import opened RateLaw
  import opened Elements
  import opened Sbml
  import opened Passes

  /**
   * The group a reaction is filed under: its nearest container when that
   * is a `Neutral`, provided it has an annotator and the annotation is
   * written (scene coordinates were given or its own are not both zero).
   */
  function ReacGroupOf(r: Reac, sceneItems: bool): Option<GroupNode>
  {
    if r.info.Some? && (sceneItems || r.info.value.x != 0.0 || r.info.value.y != 0.0) then GroupOf(r.up)
    else None
  }

  /** The reaction as created, before its kinetic law is filled in. */
  function ReacHead(r: Reac, id: string, reactants: seq<SpeciesRef>): Reaction
  {
    Reaction(id, DisplayName(r.ref), r.kb != 0.0, NotesOf(r.info), reactants, [], [], "", [])
  }

  /** `parmUnit(n - 1)`: the unit of a rate constant whose side has `n` participants. */
  function SideUnit(n: nat): UnitDef
    requires n > 0
  {
    OrderDef(n - 1)
  }

  /**
   * The reaction written for id `id` in compartment `compt`, from the
   * substrate and product results of `getSubprd`.
   */
  function ReacRecord(r: Reac, id: string, compt: string, s: Subprd, p: Subprd): Reaction
    requires s.count.Some? && s.count.value.0 > 0 && p.count.Some? && p.count.value.0 > 0
  {
    var kf := Param(IdBeginWith(id + "_Kf"), r.kf, SideUnit(s.count.value.0).id);
    var forward := compt + " * " + id + "_Kf * " + s.count.value.1;
    var written := ReacHead(r, id, s.refs).(products := p.refs);
    if r.kb != 0.0 then
      var kb := Param(IdBeginWith(id + "_Kb"), r.kb, SideUnit(p.count.value.0).id);
      written.(params := [kf, kb], formula := forward + "-" + (compt + " * " + id + "_Kb * " + p.count.value.1))
    else written.(params := [kf], formula := forward)
  }

  /** The unit definitions after a written reaction: `Kf`'s, then `Kb`'s when it is used. */
  function ReacUnits(defs: seq<UnitDef>, r: Reac, s: Subprd, p: Subprd): seq<UnitDef>
    requires s.count.Some? && s.count.value.0 > 0 && p.count.Some? && p.count.value.0 > 0
  {
    var withKf := Register(defs, SideUnit(s.count.value.0));
    if r.kb != 0.0 then Register(withKf, SideUnit(p.count.value.0)) else withKf
  }

  /** The substrate lookup of a reaction. */
  function SubsOf(st: State, r: Reac): Subprd
  {
    GetSubprdSpec(Sub, r.subs, false, st.constTrue, st.nameList)
  }

  /** The product lookup, made after the substrate lookup. */
  function PrdsOf(st: State, r: Reac): Subprd
  {
    GetSubprdSpec(Prd, r.prds, false, st.constTrue, SubsOf(st, r).nameList)
  }

  /** The loop body of `writeReac` for one reaction. */
  function ReacStep(sceneItems: bool, st: State, r: Reac): (State, Status)
  {
    if r.subs == [] || r.prds == [] then (st, Running)
    else
      var id := CleanId(r.ref);
      var g := ReacGroupOf(r, sceneItems);
      var gi := if g.Some? then AddMember(st.groupInfo, g.value, id) else st.groupInfo;
      var s := SubsOf(st, r);
      if s.count.None? then (st.(groupInfo := gi), Raised)
      else if s.count.value.0 == 0 || r.subCompartment.None? then
        (st.(reactions := st.reactions + [ReacHead(r, id, s.refs)], groupInfo := gi, nameList := s.nameList), Stopped)
      else
        var kf := Param(IdBeginWith(id + "_Kf"), r.kf, SideUnit(s.count.value.0).id);
        var withKf := Register(st.unitDefs, SideUnit(s.count.value.0));
        var p := PrdsOf(st, r);
        if p.count.None? then (st.(groupInfo := gi), Raised)
        else if p.count.value.0 == 0 then
          (st.(reactions := st.reactions + [ReacHead(r, id, s.refs).(products := p.refs, params := [kf])],
               unitDefs := withKf, groupInfo := gi, nameList := p.nameList), Stopped)
        else
          (st.(reactions := st.reactions + [ReacRecord(r, id, RawId(r.subCompartment.value), s, p)],
               unitDefs := ReacUnits(st.unitDefs, r, s, p), groupInfo := gi, nameList := p.nameList),
           Running)
  }

  function WriteReacSpec(sceneItems: bool, st: State, reacs: seq<Reac>): (State, Status)
  {
    Pass((s, r) => ReacStep(sceneItems, s, r), st, reacs, 0)
  }

  /** A parameter id is the reaction's clean id with the constant's suffix. */
  lemma ParamId(id: string, k: string)
    requires |id| > 0 && !IsDigit(id[0])
    ensures IdBeginWith(id + k) == id + k
  {
  }

  /**
   * Both lookups of a reaction with both sides succeed: each reports its
   * side's length and rate expression, and the name list ends up empty.
   */
  lemma SidesFound(st: State, r: Reac)
    requires r.subs != [] && r.prds != []
    ensures SubsOf(st, r).count == Some((|r.subs|, RateExpr(Counter(r.subs))))
    ensures PrdsOf(st, r).count == Some((|r.prds|, RateExpr(Counter(r.prds))))
    ensures PrdsOf(st, r).nameList == []
  {
  }

  /** A reaction missing its substrates or its products is skipped. */
  lemma ReacSkipped(sceneItems: bool, st: State, r: Reac)
    requires r.subs == [] || r.prds == []
    ensures ReacStep(sceneItems, st, r) == (st, Running)
  {
  }

  /**
   * A reaction with both sides never raises; it ends the pass exactly
   * when its substrates' compartment lookup fails, and then leaves a
   * reaction with its reactants but no products, parameters or formula.
   */
  lemma ReacStopped(sceneItems: bool, st: State, r: Reac)
    requires r.subs != [] && r.prds != []
    ensures var (st', status) := ReacStep(sceneItems, st, r);
      status != Raised && (status == Stopped <==> r.subCompartment.None?) &&
      (status == Stopped ==>
         st'.reactions == st.reactions + [ReacHead(r, CleanId(r.ref), SubsOf(st, r).refs)] &&
         st'.unitDefs == st.unitDefs)
  {
    SidesFound(st, r);
  }

  /** A head has no products, parameters or formula. */
  lemma ReacHeadFields(r: Reac, id: string, reactants: seq<SpeciesRef>)
    ensures var h := ReacHead(r, id, reactants);
      h.id == id && h.name == DisplayName(r.ref) && h.reactants == reactants &&
      h.products == [] && h.modifiers == [] && h.params == [] && h.formula == ""
  {
  }

  /**
   * A reaction with both sides and a compartment is written: its record
   * goes last, the units of its constants are registered and the name
   * list is cleared.
   */
  lemma ReacWritten(sceneItems: bool, st: State, r: Reac)
    requires r.subs != [] && r.prds != [] && r.subCompartment.Some?
    ensures |r.subs| > 0 && |r.prds| > 0
    ensures var (st', status) := ReacStep(sceneItems, st, r);
      var s := SubsOf(st, r);
      var p := PrdsOf(st, r);
      s.count == Some((|r.subs|, RateExpr(Counter(r.subs)))) &&
      p.count == Some((|r.prds|, RateExpr(Counter(r.prds)))) &&
      status == Running &&
      st'.reactions == st.reactions + [ReacRecord(r, CleanId(r.ref), RawId(r.subCompartment.value), s, p)] &&
      st'.unitDefs == ReacUnits(st.unitDefs, r, s, p) && st'.nameList == [] &&
      st'.species == st.species && st'.compartments == st.compartments && st'.rules == st.rules &&
      st'.constTrue == st.constTrue
  {
    SidesFound(st, r);
  }

  /**
   * A written reaction: the given id and the escaped name, reversible
   * exactly when `Kb` is not zero; the law is the forward term in `<id>_Kf`
   * and the substrates' rate expression, followed, when `Kb` is not zero,
   * by `-` and the backward term in `<id>_Kb` and the products' one. Each
   * constant's unit follows the size of its side.
   */
  lemma ReacRecordFields(r: Reac, id: string, compt: string, s: Subprd, p: Subprd,
                         ns: nat, se: string, np: nat, pe: string)
    requires |id| > 0 && !IsDigit(id[0]) && ns > 0 && np > 0
    requires s.count == Some((ns, se)) && p.count == Some((np, pe))
    ensures var rec := ReacRecord(r, id, compt, s, p);
      var forward := compt + " * " + id + "_Kf * " + se;
      var backward := compt + " * " + id + "_Kb * " + pe;
      var kf := Param(id + "_Kf", r.kf, OrderName(ns - 1));
      rec.id == id && rec.name == ReacHead(r, id, s.refs).name && (rec.reversible <==> r.kb != 0.0) &&
      rec.reactants == s.refs && rec.products == p.refs && rec.modifiers == [] &&
      (r.kb == 0.0 ==> rec.formula == forward && rec.params == [kf]) &&
      (r.kb != 0.0 ==> rec.formula == forward + "-" + backward &&
                       rec.params == [kf, Param(id + "_Kb", r.kb, OrderName(np - 1))])
  {
    ParamId(id, "_Kf");
    ParamId(id, "_Kb");
  }

  /** The constants' units are defined once the reaction is written. */
  lemma ReacUnitsDefined(defs: seq<UnitDef>, r: Reac, s: Subprd, p: Subprd)
    requires s.count.Some? && s.count.value.0 > 0 && p.count.Some? && p.count.value.0 > 0
    ensures HasId(ReacUnits(defs, r, s, p), OrderName(s.count.value.0 - 1))
    ensures r.kb != 0.0 ==> HasId(ReacUnits(defs, r, s, p), OrderName(p.count.value.0 - 1))
    ensures forall id :: HasId(defs, id) ==> HasId(ReacUnits(defs, r, s, p), id)
  {
    var withKf := Register(defs, SideUnit(s.count.value.0));
    assert SideUnit(s.count.value.0).id == OrderName(s.count.value.0 - 1);
    assert SideUnit(p.count.value.0).id == OrderName(p.count.value.0 - 1);
    forall id | HasId(defs, id) ensures HasId(ReacUnits(defs, r, s, p), id) {
      RegisterKeepsIds(defs, SideUnit(s.count.value.0), id);
      if r.kb != 0.0 {
        RegisterKeepsIds(withKf, SideUnit(p.count.value.0), id);
      }
    }
    if r.kb != 0.0 {
      RegisterKeepsIds(withKf, SideUnit(p.count.value.0), OrderName(s.count.value.0 - 1));
    }
  }

  /** The species references: one per distinct substrate and per distinct product, with its count. */
  lemma ReacParticipants(st: State, r: Reac)
    requires r.subs != [] && r.prds != []
    ensures var s := SubsOf(st, r); var p := PrdsOf(st, r);
      |s.refs| == |Distinct(r.subs)| && |p.refs| == |Distinct(r.prds)| &&
      (forall i :: 0 <= i < |s.refs| ==>
         s.refs[i].species == CleanId(Distinct(r.subs)[i]) &&
         s.refs[i].stoichiometry == Some(Count(r.subs, Distinct(r.subs)[i]))) &&
      (forall i :: 0 <= i < |p.refs| ==>
         p.refs[i].species == CleanId(Distinct(r.prds)[i]) &&
         p.refs[i].stoichiometry == Some(Count(r.prds, Distinct(r.prds)[i])))
  {
    GetSubprdRefs(Sub, r.subs, false, st.constTrue, st.nameList);
    GetSubprdRefs(Prd, r.prds, false, st.constTrue, SubsOf(st, r).nameList);
  }

  /**
   * A reaction with both sides is filed under its group, even when the
   * pass then stops at it.
   */
  lemma ReacGroup(sceneItems: bool, st: State, r: Reac, h: GroupNode)
    requires r.subs != [] && r.prds != []
    ensures MembersOf(ReacStep(sceneItems, st, r).0.groupInfo, h) ==
      if ReacGroupOf(r, sceneItems) == Some(h) then MembersOf(st.groupInfo, h) + [CleanId(r.ref)]
      else MembersOf(st.groupInfo, h)
  {
    var g := ReacGroupOf(r, sceneItems);
    if g.Some? {
      AddMemberMembers(st.groupInfo, g.value, CleanId(r.ref), h);
    }
  }

  /** A reaction the pass can write without stopping. */
  predicate Writable(r: Reac)
  {
    r.subs == [] || r.prds == [] || r.subCompartment.Some?
  }

  /** The reaction ids a reaction contributes. */
  function ReacIds(r: Reac): seq<string>
  {
    if r.subs == [] || r.prds == [] then [] else [CleanId(r.ref)]
  }

  lemma ReacStepAppends(sceneItems: bool, s: State, r: Reac)
    requires Writable(r)
    ensures ReacStep(sceneItems, s, r).1 == Running
    ensures ReactionIds(ReacStep(sceneItems, s, r).0.reactions) == ReactionIds(s.reactions) + ReacIds(r)
  {
    if r.subs != [] && r.prds != [] {
      ReacWritten(sceneItems, s, r);
      var rs := ReacStep(sceneItems, s, r).0.reactions;
      assert rs[|s.reactions|].id == CleanId(r.ref);
      ReactionIdsPush(s.reactions, rs, CleanId(r.ref));
    }
  }

  /**
   * When every reaction can be written, the pass runs to the end and
   * adds one SBML reaction per reaction with both sides, in order.
   */
  lemma WriteReacAll(sceneItems: bool, st: State, reacs: seq<Reac>)
    requires forall i :: 0 <= i < |reacs| ==> Writable(reacs[i])
    ensures WriteReacSpec(sceneItems, st, reacs).1 == Running
    ensures ReactionIds(WriteReacSpec(sceneItems, st, reacs).0.reactions) ==
            ReactionIds(st.reactions) + Concat(ReacIds, reacs, 0)
  {
    var step := (s, r) => ReacStep(sceneItems, s, r);
    forall s: State, i | 0 <= i < |reacs|
      ensures step(s, reacs[i]).1 == Running &&
              ReactionIds(step(s, reacs[i]).0.reactions) == ReactionIds(s.reactions) + ReacIds(reacs[i])
    {
      ReacStepAppends(sceneItems, s, reacs[i]);
    }
    PassAppends(step, (s: State) => ReactionIds(s.reactions), ReacIds, st, reacs, 0);
  }

  /** A reaction step keeps unit ids unique and the groups in their places. */
  lemma ReacStepExtends(sceneItems: bool, st: State, r: Reac)
    ensures Extends(st, ReacStep(sceneItems, st, r).0)
  {
    if r.subs != [] && r.prds != [] {
      var id := CleanId(r.ref);
      var g := ReacGroupOf(r, sceneItems);
      var s := SubsOf(st, r);
      var st' := ReacStep(sceneItems, st, r).0;
      if s.count.None? || s.count.value.0 == 0 || r.subCompartment.None? {
        FilingExtends(st, st', KmDef, g, id);
      } else {
        var p := PrdsOf(st, r);
        var d2 := if p.count.Some? && p.count.value.0 > 0 then SideUnit(p.count.value.0) else KmDef;
        FilingExtends2(st, st', SideUnit(s.count.value.0), d2, g, id);
      }
    }
  }
}
