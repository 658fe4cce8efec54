/**
 * `writeSpecies`: one SBML species per pool, in order, skipping pools
 * whose name contains `_xfer_`. A pool whose compartment lookup does not
 * end at a chemical compartment ends the pass (`return -2`).
 */
module Pools {
  import opened Wrappers
  import opened Strings
  import opened Sanitize
  import opened MooseTree
  import opened Elements
  import opened Sbml
  import opened Passes

  /** Transfer pools are not written. */
  predicate IsXfer(p: Pool)
  {
    IsSubstring("_xfer_", p.ref.name)
  }

  /**
   * An enzyme complex (an id containing `cplx` under an enzyme) without an
   * `info` annotator. The writer gives it one and copies the enzyme's
   * coordinates into it: reading the enzyme's `info` fails when the
   * enzyme has none, and otherwise its `x`, a number, is passed where an
   * element path is expected. Either way the call raises.
   */
  predicate CplxWithoutInfo(p: Pool)
  {
    p.info.None? && IsSubstring("cplx", CleanId(p.ref)) && p.parentIsEnz
  }

  /**
   * The `constant` flag: false for an ordinary pool, true for a buffered
   * pool without a `func` child, and otherwise set by each `Function`
   * child in turn (false when it has inputs), so that the last one wins;
   * never set when `func` exists but no such child does.
   */
  function SpeciesConstant(p: Pool): Option<bool>
  {
    if !p.buffered then Some(false)
    else if !p.hasFunc then Some(true)
    else if p.functionInputs == [] then None
    else Some(p.functionInputs[|p.functionInputs| - 1] == 0)
  }

  /** `id` once for each `Function` child without inputs. */
  function ZeroInputEntries(inputs: seq<nat>, id: string): seq<string>
    decreases |inputs|
  {
    if inputs == [] then []
    else ZeroInputEntries(inputs[..|inputs| - 1], id) + (if inputs[|inputs| - 1] == 0 then [id] else [])
  }

  /** What the pool adds to `spe_constTrue`. */
  function ConstTrueAdded(p: Pool, id: string): seq<string>
  {
    if !p.buffered then []
    else if !p.hasFunc then [id]
    else ZeroInputEntries(p.functionInputs, id)
  }

  /** The species record of a pool in the given compartment. */
  function SpeciesRecord(p: Pool, compt: Ref): Species
  {
    var info := p.info;
    Species(CleanId(p.ref), DisplayName(p.ref), p.concInit, RawId(compt), p.buffered, SpeciesConstant(p),
            "substance", false, NotesOf(info),
            if info.Some? then p.diffConst else 0.0, if info.Some? then p.motorConst else 0.0)
  }

  /** The loop body of `writeSpecies` for one pool. */
  function SpeciesStep(st: State, p: Pool): (State, Status)
  {
    if IsXfer(p) then (st, Running)
    else if p.compartment.None? then (st, Stopped)
    else if CplxWithoutInfo(p) then (st, Raised)
    else
      var id := CleanId(p.ref);
      var g := FiledGroup(p.info, p.up);
      (st.(species := st.species + [SpeciesRecord(p, p.compartment.value)],
           constTrue := st.constTrue + ConstTrueAdded(p, id),
           groupInfo := if g.Some? then AddMember(st.groupInfo, g.value, id) else st.groupInfo),
       Running)
  }

  function WriteSpeciesSpec(st: State, pools: seq<Pool>): (State, Status)
  {
    Pass(SpeciesStep, st, pools, 0)
  }

  lemma {:induction false} ZeroInputEntriesIn(inputs: seq<nat>, id: string)
    ensures id in ZeroInputEntries(inputs, id) <==> 0 in inputs
    ensures forall x :: x in ZeroInputEntries(inputs, id) ==> x == id
    decreases |inputs|
  {
    if inputs != [] {
      var init := inputs[..|inputs| - 1];
      ZeroInputEntriesIn(init, id);
      assert inputs == init + [inputs[|inputs| - 1]];
    }
  }

  /**
   * The flag table: a buffered pool is a boundary species and an ordinary
   * one is not; an ordinary pool is never constant; a buffered pool
   * without `func` is constant; with `func`, the last `Function` child
   * decides, constant exactly when it has no inputs.
   */
  lemma SpeciesFlags(p: Pool, compt: Ref)
    ensures var s := SpeciesRecord(p, compt);
      s.boundaryCondition == p.buffered &&
      (!p.buffered ==> s.constant == Some(false)) &&
      (p.buffered && !p.hasFunc ==> s.constant == Some(true)) &&
      (p.buffered && p.hasFunc && p.functionInputs != [] ==>
         (s.constant == Some(true) <==> p.functionInputs[|p.functionInputs| - 1] == 0)) &&
      (s.constant.None? <==> p.buffered && p.hasFunc && p.functionInputs == [])
  {
  }

  /**
   * A pool's id goes into `spe_constTrue` exactly when it is buffered and
   * either has no `func` child or has a `Function` child without inputs;
   * nothing else goes in.
   */
  lemma ConstTrueEntries(p: Pool, id: string)
    ensures id in ConstTrueAdded(p, id) <==> p.buffered && (!p.hasFunc || 0 in p.functionInputs)
    ensures forall x :: x in ConstTrueAdded(p, id) ==> x == id
  {
    ZeroInputEntriesIn(p.functionInputs, id);
  }

  /** A species record names the pool's clean id, its escaped name and its raw compartment id. */
  lemma SpeciesRecordFields(p: Pool, compt: Ref)
    ensures var s := SpeciesRecord(p, compt);
      s.id == CleanId(p.ref) && s.name == DisplayName(p.ref) && s.compartment == RawId(compt) &&
      s.initialConcentration == p.concInit && s.units == "substance" && !s.hasOnlySubstanceUnits &&
      (p.info.None? ==> s.diffConst == 0.0 && s.motorConst == 0.0 && s.notes.None?)
  {
  }

  /** Transfer pools are skipped with nothing written. */
  lemma XferSkipped(st: State, p: Pool)
    requires IsXfer(p)
    ensures SpeciesStep(st, p) == (st, Running)
  {
  }

  /**
   * Any other pool ends the pass exactly when its compartment lookup
   * fails, raises exactly when it is an enzyme complex without `info`
   * that has a compartment, and otherwise appends its record and only that.
   */
  lemma SpeciesStepEffect(st: State, p: Pool)
    requires !IsXfer(p)
    ensures var (st', status) := SpeciesStep(st, p);
      (status == Stopped <==> p.compartment.None?) &&
      (status == Raised <==> p.compartment.Some? && CplxWithoutInfo(p)) &&
      (status != Running ==> st' == st) &&
      (status == Running ==>
         st'.species == st.species + [SpeciesRecord(p, p.compartment.value)] &&
         st'.constTrue == st.constTrue + ConstTrueAdded(p, CleanId(p.ref)) &&
         st'.unitDefs == st.unitDefs && st'.compartments == st.compartments &&
         st'.reactions == st.reactions && st'.rules == st.rules && st'.nameList == st.nameList)
  {
  }

  /** The group bookkeeping: a filed pool is added to its group's members, after those already there. */
  lemma SpeciesGroup(st: State, p: Pool, h: GroupNode)
    requires !IsXfer(p) && p.compartment.Some?
    ensures var st' := SpeciesStep(st, p).0;
      MembersOf(st'.groupInfo, h) ==
        if FiledGroup(p.info, p.up) == Some(h) then MembersOf(st.groupInfo, h) + [CleanId(p.ref)]
        else MembersOf(st.groupInfo, h)
  {
    var g := FiledGroup(p.info, p.up);
    if g.Some? {
      AddMemberMembers(st.groupInfo, g.value, CleanId(p.ref), h);
    }
  }

  /** The records a pool contributes: none for a transfer pool. */
  function SpeciesOut(p: Pool): seq<Species>
  {
    if !Placed(p) || IsXfer(p) then [] else [SpeciesRecord(p, p.compartment.value)]
  }

  /** A pool the species step handles without stopping or raising. */
  predicate Placed(p: Pool)
  {
    IsXfer(p) || (p.compartment.Some? && !CplxWithoutInfo(p))
  }

  lemma SpeciesStepAppends(s: State, p: Pool)
    requires Placed(p)
    ensures SpeciesStep(s, p).1 == Running && SpeciesStep(s, p).0.species == s.species + SpeciesOut(p)
  {
    if !IsXfer(p) {
      SpeciesStepEffect(s, p);
    }
  }

  /**
   * When every pool is a transfer pool, or has a compartment and is not an
   * enzyme complex without `info`, the pass runs to the end and writes one
   * species per other pool, in order.
   */
  lemma WriteSpeciesAll(st: State, pools: seq<Pool>)
    requires forall i :: 0 <= i < |pools| ==> Placed(pools[i])
    ensures WriteSpeciesSpec(st, pools).1 == Running
    ensures WriteSpeciesSpec(st, pools).0.species == st.species + Concat(SpeciesOut, pools, 0)
  {
    forall s: State, i | 0 <= i < |pools|
      ensures SpeciesStep(s, pools[i]).1 == Running &&
              SpeciesStep(s, pools[i]).0.species == s.species + SpeciesOut(pools[i])
    {
      SpeciesStepAppends(s, pools[i]);
    }
    PassAppends(SpeciesStep, (s: State) => s.species, SpeciesOut, st, pools, 0);
  }

  /**
   * When the pools before `pools[j]` are all handled and `pools[j]` is an
   * enzyme complex without `info` that has a compartment, the pass raises.
   */
  lemma WriteSpeciesRaises(st: State, pools: seq<Pool>, j: nat)
    requires j < |pools| && forall i :: 0 <= i < j ==> Placed(pools[i])
    requires !IsXfer(pools[j]) && pools[j].compartment.Some? && CplxWithoutInfo(pools[j])
    ensures WriteSpeciesSpec(st, pools).1 == Raised
  {
    forall s: State, i | 0 <= i < j
      ensures SpeciesStep(s, pools[i]).1 == Running
    {
      SpeciesStepAppends(s, pools[i]);
    }
    PassRaises(SpeciesStep, st, pools, 0, j);
  }

  /** A species step keeps unit ids unique and the groups in their places. */
  lemma SpeciesStepExtends(s: State, p: Pool)
    ensures Extends(s, SpeciesStep(s, p).0)
  {
    if Placed(p) && !IsXfer(p) {
      FilingExtends(s, SpeciesStep(s, p).0, Units.OrderDef(0), FiledGroup(p.info, p.up), CleanId(p.ref));
    }
  }
}
