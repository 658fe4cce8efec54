/**
 * `writeChannel`: one SBML reaction per concentration channel that has
 * both an `in` and an `out` neighbour, written with the channel's
 * permeability as its only parameter. The `setNumChan` neighbours are
 * the modifiers; a channel without one makes `getSubprd` return nothing,
 * which the unpacking of its result turns into an exception.
 */
module Channels {
  import opened Wrappers
  import opened MooseTree
  import opened Units
  import opened RateLaw
  import opened Elements
  import opened Sbml
  import opened Passes

  /** `compt * ( Permeability) * M * (S - P)`. */
  function ChanFormula(compt: string, s: string, m: string, p: string): string
  {
    compt + " * ( Permeability) * " + m + " * (" + s + " - " + p + ")"
  }

  /** The reaction of a channel, from the results of the three `getSubprd` calls. */
  function ChanRecord(c: Chan, compt: Ref, s: Subprd, m: Subprd, p: Subprd): Reaction
    requires s.count.Some? && m.count.Some? && p.count.Some?
  {
    Reaction(CleanId(c.ref), DisplayName(c.ref), true, NotesOf(c.info), s.refs, p.refs, m.refs,
             ChanFormula(RawId(compt), s.count.value.1, m.count.value.1, p.count.value.1),
             [Param("Permeability", c.permeability, PermeabilityDef.id)])
  }

  /**
   * The loop body of `writeChannel` for one channel. The substrate and
   * product lookups cannot fail here (both lists are nonempty) and are
   * tested only because the source unpacks all three results.
   */
  function ChanStep(st: State, c: Chan): (State, Status)
  {
    if c.ins == [] || c.outs == [] then (st, Running)
    else if c.compartment.None? then (st, Stopped)
    else
      var s := GetSubprdSpec(Sub, c.ins, false, st.constTrue, st.nameList);
      var m := GetSubprdSpec(Mod, c.setNumChan, false, st.constTrue, s.nameList);
      var p := GetSubprdSpec(Prd, c.outs, false, st.constTrue, m.nameList);
      if s.count.None? || m.count.None? || p.count.None? then (st, Raised)
      else
        var g := FiledGroup(c.info, c.up);
        (st.(reactions := st.reactions + [ChanRecord(c, c.compartment.value, s, m, p)],
             unitDefs := Register(st.unitDefs, PermeabilityDef),
             groupInfo := if g.Some? then AddMember(st.groupInfo, g.value, CleanId(c.ref)) else st.groupInfo,
             nameList := p.nameList),
         Running)
  }

  function WriteChannelSpec(st: State, chans: seq<Chan>): (State, Status)
  {
    Pass(ChanStep, st, chans, 0)
  }

  /** A channel missing its `in` or its `out` side is skipped. */
  lemma ChanSkipped(st: State, c: Chan)
    requires c.ins == [] || c.outs == []
    ensures ChanStep(st, c) == (st, Running)
  {
  }

  /**
   * A channel with both sides ends the pass when its compartment lookup
   * fails, raises when it has no `setNumChan` neighbour, and is written
   * otherwise; nothing changes when it is not written.
   */
  lemma ChanStepStatus(st: State, c: Chan)
    requires c.ins != [] && c.outs != []
    ensures var (st', status) := ChanStep(st, c);
      (status == Stopped <==> c.compartment.None?) &&
      (status == Raised <==> c.compartment.Some? && c.setNumChan == []) &&
      (status != Running ==> st' == st)
  {
  }

  /**
   * A written channel is a reversible reaction with the channel's clean
   * id and escaped name; its rate law is the raw compartment id times the
   * permeability, the modifiers' rate expression and the difference of
   * the substrate and product expressions; its one parameter is the
   * permeability in `litre_per_mmole_per_second`, whose definition the
   * document then has. The name list is cleared.
   */
  lemma ChanWritten(st: State, c: Chan)
    requires c.ins != [] && c.outs != [] && c.compartment.Some? && c.setNumChan != []
    ensures var (st', status) := ChanStep(st, c);
      status == Running && |st'.reactions| == |st.reactions| + 1 &&
      st'.reactions[..|st.reactions|] == st.reactions &&
      var r := st'.reactions[|st.reactions|];
      r.id == CleanId(c.ref) && r.name == DisplayName(c.ref) && r.reversible &&
      r.formula == RawId(c.compartment.value) + " * ( Permeability) * " + RateExpr(Counter(c.setNumChan)) +
                   " * (" + RateExpr(Counter(c.ins)) + " - " + RateExpr(Counter(c.outs)) + ")" &&
      r.params == [Param("Permeability", c.permeability, "litre_per_mmole_per_second")] &&
      r.notes == NotesOf(c.info) &&
      HasId(st'.unitDefs, "litre_per_mmole_per_second") && st'.nameList == [] &&
      st'.species == st.species && st'.compartments == st.compartments && st'.rules == st.rules &&
      st'.constTrue == st.constTrue
  {
  }

  /**
   * The species references of a written channel: one per distinct `in`
   * (reactants), `out` (products) and `setNumChan` (modifiers) neighbour,
   * each naming that neighbour's clean id.
   */
  lemma ChanParticipants(st: State, c: Chan)
    requires c.ins != [] && c.outs != [] && c.compartment.Some? && c.setNumChan != []
    ensures var r := ChanStep(st, c).0.reactions[|st.reactions|];
      |r.reactants| == |Distinct(c.ins)| && |r.products| == |Distinct(c.outs)| &&
      |r.modifiers| == |Distinct(c.setNumChan)| &&
      (forall i :: 0 <= i < |r.reactants| ==> r.reactants[i].species == CleanId(Distinct(c.ins)[i])) &&
      (forall i :: 0 <= i < |r.products| ==> r.products[i].species == CleanId(Distinct(c.outs)[i])) &&
      (forall i :: 0 <= i < |r.modifiers| ==> r.modifiers[i].species == CleanId(Distinct(c.setNumChan)[i]))
  {
    GetSubprdRefs(Sub, c.ins, false, st.constTrue, st.nameList);
    GetSubprdRefs(Mod, c.setNumChan, false, st.constTrue, []);
    GetSubprdRefs(Prd, c.outs, false, st.constTrue, []);
  }

  /** A written channel is filed under its group as the species are. */
  lemma ChanGroup(st: State, c: Chan, h: GroupNode)
    requires c.ins != [] && c.outs != [] && c.compartment.Some? && c.setNumChan != []
    ensures MembersOf(ChanStep(st, c).0.groupInfo, h) ==
      if FiledGroup(c.info, c.up) == Some(h) then MembersOf(st.groupInfo, h) + [CleanId(c.ref)]
      else MembersOf(st.groupInfo, h)
  {
    var g := FiledGroup(c.info, c.up);
    if g.Some? {
      AddMemberMembers(st.groupInfo, g.value, CleanId(c.ref), h);
    }
  }

  /** A channel the pass can write without stopping or raising. */
  predicate Writable(c: Chan)
  {
    c.ins == [] || c.outs == [] || (c.compartment.Some? && c.setNumChan != [])
  }

  /** The reaction ids a channel contributes. */
  function ChanIds(c: Chan): seq<string>
  {
    if c.ins == [] || c.outs == [] then [] else [CleanId(c.ref)]
  }

  lemma ChanStepAppends(s: State, c: Chan)
    requires Writable(c)
    ensures ChanStep(s, c).1 == Running
    ensures ReactionIds(ChanStep(s, c).0.reactions) == ReactionIds(s.reactions) + ChanIds(c)
  {
    if c.ins != [] && c.outs != [] {
      ChanWritten(s, c);
      ReactionIdsPush(s.reactions, ChanStep(s, c).0.reactions, CleanId(c.ref));
    }
  }

  /**
   * When every channel can be written, the pass runs to the end and
   * adds one reaction per channel with both sides, in order.
   */
  lemma WriteChannelAll(st: State, chans: seq<Chan>)
    requires forall i :: 0 <= i < |chans| ==> Writable(chans[i])
    ensures WriteChannelSpec(st, chans).1 == Running
    ensures ReactionIds(WriteChannelSpec(st, chans).0.reactions) == ReactionIds(st.reactions) + Concat(ChanIds, chans, 0)
  {
    forall s: State, i | 0 <= i < |chans|
      ensures ChanStep(s, chans[i]).1 == Running &&
              ReactionIds(ChanStep(s, chans[i]).0.reactions) == ReactionIds(s.reactions) + ChanIds(chans[i])
    {
      ChanStepAppends(s, chans[i]);
    }
    PassAppends(ChanStep, (s: State) => ReactionIds(s.reactions), ChanIds, st, chans, 0);
  }

  /** The state a written channel leaves keeps unit ids unique and the groups in their places. */
  lemma ChanWrittenExtends(st: State, rec: Reaction, g: Option<GroupNode>, id: string, names: seq<string>)
    ensures Extends(st, st.(reactions := st.reactions + [rec],
                            unitDefs := Register(st.unitDefs, PermeabilityDef),
                            groupInfo := if g.Some? then AddMember(st.groupInfo, g.value, id) else st.groupInfo,
                            nameList := names))
  {
    var st' := st.(reactions := st.reactions + [rec],
                   unitDefs := Register(st.unitDefs, PermeabilityDef),
                   groupInfo := if g.Some? then AddMember(st.groupInfo, g.value, id) else st.groupInfo,
                   nameList := names);
    FilingExtends(st, st', PermeabilityDef, g, id);
  }

  /** A channel step keeps unit ids unique and the groups in their places. */
  lemma ChanStepExtends(st: State, c: Chan)
    ensures Extends(st, ChanStep(st, c).0)
  {
    if c.ins == [] || c.outs == [] || c.compartment.None? {
      assert ChanStep(st, c).0 == st;
    } else {
      var s := GetSubprdSpec(Sub, c.ins, false, st.constTrue, st.nameList);
      var m := GetSubprdSpec(Mod, c.setNumChan, false, st.constTrue, s.nameList);
      var p := GetSubprdSpec(Prd, c.outs, false, st.constTrue, m.nameList);
      if s.count.None? || m.count.None? || p.count.None? {
        assert ChanStep(st, c).0 == st;
      } else {
        ChanWrittenExtends(st, ChanRecord(c, c.compartment.value, s, m, p), FiledGroup(c.info, c.up),
                           CleanId(c.ref), p.nameList);
      }
    }
  }
}
