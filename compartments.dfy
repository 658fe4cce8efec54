/**
 * `writeCompt`: one SBML compartment per MOOSE compartment, in order. An
 * endoplasmic mesh must name a surrounding compartment that already has an
 * id (an earlier compartment, or itself); the first one that does not
 * ends the pass with an error. Every `Neutral` below a written compartment
 * is entered into a fresh group table with no members.
 */
module Compartments {
  import opened Wrappers
  import opened Sanitize
  import opened MooseTree
  import opened Elements
  import opened Sbml
  import opened Seqs

  const EndoError: string := "Outer compartment need to be specified for EndoMesh "

  /** `setUnits` by number of dimensions; other dimensions get no units. */
  function DimensionUnits(ndim: int): Option<string>
  {
    if ndim == 3 then Some("volume")
    else if ndim == 2 then Some("area")
    else if ndim == 1 then Some("metre")
    else None
  }

  /** The `info` notes, unescaped, when there are any. */
  function RawNotes(info: Option<Info>): Option<string>
  {
    if info.Some? && info.value.notes != "" then Some(info.value.notes) else None
  }

  /**
   * The compartment record. Its size is the volume in litres whatever the
   * mesh, and `outside` is never set.
   */
  function ComptRecord(c: Compt, surroundId: Option<string>): Compartment
  {
    Compartment(CleanId(c.ref), ApplyTable(IdTable, c.ref.name), true, c.volume * 1000.0, None,
                c.numDimensions, DimensionUnits(c.numDimensions),
                ComptAnnotation(MeshClassName(c.mesh), surroundId,
                                if c.mesh.CylMesh? then Some((c.mesh.totLength, c.mesh.diffLength)) else None,
                                c.membraneBound, RawNotes(c.info)))
  }

  /** Enters each group with no members unless it is already in the table. */
  function PreregisterAll(gi: GroupTable, gs: seq<GroupNode>, k: nat): GroupTable
    requires k <= |gs|
    decreases |gs| - k
  {
    if k == |gs| then gi else PreregisterAll(Preregister(gi, gs[k]), gs, k + 1)
  }

  /**
   * The compartments from `cs[k]` on. `ids` holds the compartments given
   * an id so far (`comptID_sbml`, whose value for a compartment is always
   * its clean id); the second component is the error that ended the pass,
   * if any.
   */
  function ComptsFrom(st: State, ids: set<Ref>, cs: seq<Compt>, k: nat): (State, Option<string>)
    requires k <= |cs|
    decreases |cs| - k
  {
    if k == |cs| then (st, None)
    else
      var c := cs[k];
      var ids' := ids + {c.ref};
      if c.mesh.EndoMesh? && c.mesh.surround !in ids' then (st, Some(EndoError))
      else ComptsFrom(ComptStep(st, c), ids', cs, k + 1)
  }

  /** The surround's clean id, for an endoplasmic mesh. */
  function SurroundId(c: Compt): Option<string>
  {
    if c.mesh.EndoMesh? then Some(CleanId(c.mesh.surround)) else None
  }

  /** One written compartment: its record, and its groups entered in the table. */
  function ComptStep(st: State, c: Compt): State
  {
    st.(compartments := st.compartments + [ComptRecord(c, SurroundId(c))],
        groupInfo := PreregisterAll(st.groupInfo, c.groups, 0))
  }

  /** `writeCompt`'s result: the new state, whether a compartment exists, and the error text. */
  function WriteComptSpec(st: State, cs: seq<Compt>): (State, bool, string)
  {
    var (st', err) := ComptsFrom(st.(groupInfo := []), {}, cs, 0);
    if err.Some? then (st', false, err.value) else (st', |cs| > 0, "")
  }

  /** Some compartment before `k` is `r`. */
  predicate InPrefix(cs: seq<Compt>, k: nat, r: Ref)
    requires k <= |cs|
  {
    exists j :: 0 <= j < k && cs[j].ref == r
  }

  lemma InPrefixStep(cs: seq<Compt>, k: nat, r: Ref)
    requires k < |cs|
    ensures InPrefix(cs, k + 1, r) <==> (InPrefix(cs, k, r) || cs[k].ref == r)
  {
    if InPrefix(cs, k + 1, r) && cs[k].ref != r {
      var j :| 0 <= j < k + 1 && cs[j].ref == r;
      assert j < k;
    }
  }

  /** The surround of `cs[k]` is neither `cs[k]` itself nor any compartment before it. */
  predicate Orphan(cs: seq<Compt>, k: nat)
    requires k < |cs|
  {
    cs[k].mesh.EndoMesh? && !InPrefix(cs, k + 1, cs[k].mesh.surround)
  }

  /** Some compartment of `cs[k..]` is orphaned. */
  predicate OrphanFrom(cs: seq<Compt>, k: nat)
    requires k <= |cs|
  {
    exists i :: k <= i < |cs| && Orphan(cs, i)
  }

  predicate SomeOrphan(cs: seq<Compt>)
  {
    OrphanFrom(cs, 0)
  }

  lemma OrphanFromStep(cs: seq<Compt>, k: nat)
    requires k < |cs|
    ensures OrphanFrom(cs, k) <==> (Orphan(cs, k) || OrphanFrom(cs, k + 1))
  {
    if OrphanFrom(cs, k) && !Orphan(cs, k) {
      var i :| k <= i < |cs| && Orphan(cs, i);
      assert i != k;
    }
  }

  /** The ids are exactly those of the compartments before `k`. */
  ghost predicate IdsOfPrefix(ids: set<Ref>, cs: seq<Compt>, k: nat)
    requires k <= |cs|
  {
    forall r :: r in ids <==> InPrefix(cs, k, r)
  }

  /** The id check of `cs[k]` fails exactly when it is orphaned. */
  lemma IdsStep(ids: set<Ref>, cs: seq<Compt>, k: nat)
    requires k < |cs| && IdsOfPrefix(ids, cs, k)
    ensures IdsOfPrefix(ids + {cs[k].ref}, cs, k + 1)
    ensures (cs[k].mesh.EndoMesh? && cs[k].mesh.surround !in ids + {cs[k].ref}) <==> Orphan(cs, k)
  {
    forall r ensures r in ids + {cs[k].ref} <==> InPrefix(cs, k + 1, r) {
      InPrefixStep(cs, k, r);
    }
  }

  /** The record of a compartment whose surround, if any, has its id. */
  function ExpectedRecord(c: Compt): Compartment
  {
    ComptRecord(c, SurroundId(c))
  }

  /** The records of `cs[k..]`, in order. */
  function RecordsFrom(cs: seq<Compt>, k: nat): seq<Compartment>
    requires k <= |cs|
  {
    MapFrom(ExpectedRecord, cs, k)
  }

  /** The group table after entering the groups below `cs[k..]`, in order. */
  function GroupsAfter(gi: GroupTable, cs: seq<Compt>, k: nat): GroupTable
    requires k <= |cs|
    decreases |cs| - k
  {
    if k == |cs| then gi else GroupsAfter(PreregisterAll(gi, cs[k].groups, 0), cs, k + 1)
  }

  /** The state after writing `cs[k..]` with no endoplasmic-mesh error. */
  function Written(st: State, cs: seq<Compt>, k: nat): State
    requires k <= |cs|
  {
    st.(compartments := st.compartments + RecordsFrom(cs, k), groupInfo := GroupsAfter(st.groupInfo, cs, k))
  }

  lemma WrittenStep(st: State, cs: seq<Compt>, k: nat)
    requires k < |cs|
    ensures Written(ComptStep(st, cs[k]), cs, k + 1) == Written(st, cs, k)
  {
    ShiftOne(st.compartments, ExpectedRecord(cs[k]), RecordsFrom(cs, k + 1));
  }

  /** The pass ends with the endoplasmic-mesh error exactly when a compartment is orphaned. */
  lemma {:induction false} ComptsFromError(st: State, ids: set<Ref>, cs: seq<Compt>, k: nat)
    requires k <= |cs| && IdsOfPrefix(ids, cs, k)
    ensures ComptsFrom(st, ids, cs, k).1 == if OrphanFrom(cs, k) then Some(EndoError) else None
    decreases |cs| - k
  {
    if k < |cs| {
      IdsStep(ids, cs, k);
      OrphanFromStep(cs, k);
      if !Orphan(cs, k) {
        ComptsFromError(ComptStep(st, cs[k]), ids + {cs[k].ref}, cs, k + 1);
      }
    }
  }

  /** Without an orphaned compartment, the pass writes every compartment. */
  lemma {:induction false} ComptsFromWritten(st: State, ids: set<Ref>, cs: seq<Compt>, k: nat)
    requires k <= |cs| && IdsOfPrefix(ids, cs, k)
    requires !OrphanFrom(cs, k)
    ensures ComptsFrom(st, ids, cs, k) == (Written(st, cs, k), None)
    decreases |cs| - k
  {
    if k == |cs| {
      assert st.compartments + RecordsFrom(cs, k) == st.compartments;
    } else {
      OrphanFromStep(cs, k);
      IdsStep(ids, cs, k);
      ComptsFromWritten(ComptStep(st, cs[k]), ids + {cs[k].ref}, cs, k + 1);
      WrittenStep(st, cs, k);
    }
  }

  /**
   * `writeCompt` fails with the endoplasmic-mesh error exactly when some
   * endoplasmic mesh's surround has no id yet at its turn; otherwise it
   * reports a compartment exactly when the list is not empty.
   */
  lemma WriteComptResult(st: State, cs: seq<Compt>)
    ensures var (_, ok, err) := WriteComptSpec(st, cs);
      (SomeOrphan(cs) ==> !ok && err == EndoError) &&
      (!SomeOrphan(cs) ==> ok == (|cs| > 0) && err == "")
  {
    ComptsFromError(st.(groupInfo := []), {}, cs, 0);
  }

  /**
   * A record holds the compartment's clean id, is constant, has the volume
   * in litres as its size, no `outside`, the units of its dimension, and
   * for an endoplasmic mesh the surround's clean id.
   */
  lemma ExpectedRecordFields(c: Compt)
    ensures var rec := ExpectedRecord(c);
      rec.id == CleanId(c.ref) && rec.constant && rec.size == c.volume * 1000.0 &&
      rec.outside.None? && rec.spatialDimensions == c.numDimensions &&
      (rec.units == Some("volume") <==> c.numDimensions == 3) &&
      (rec.units == Some("area") <==> c.numDimensions == 2) &&
      (rec.units == Some("metre") <==> c.numDimensions == 1) &&
      (c.mesh.EndoMesh? <==> rec.annotation.surround.Some?) &&
      (c.mesh.EndoMesh? ==> rec.annotation.surround == Some(CleanId(c.mesh.surround))) &&
      (c.mesh.CylMesh? <==> rec.annotation.lengths.Some?)
  {
  }

  /**
   * Without an orphaned endoplasmic mesh, `writeCompt` appends one record
   * per compartment, in order.
   */
  lemma WriteComptRecords(st: State, cs: seq<Compt>)
    requires !SomeOrphan(cs)
    ensures var (st', _, _) := WriteComptSpec(st, cs);
      |st'.compartments| == |st.compartments| + |cs| &&
      st'.compartments[..|st.compartments|] == st.compartments &&
      forall i :: 0 <= i < |cs| ==> st'.compartments[|st.compartments| + i] == ExpectedRecord(cs[i])
  {
    ComptsFromWritten(st.(groupInfo := []), {}, cs, 0);
  }

  /** Some group below a compartment of `cs[k..]` is `h`. */
  predicate GroupBelow(cs: seq<Compt>, k: nat, h: GroupNode)
    requires k <= |cs|
  {
    exists i, j :: k <= i < |cs| && 0 <= j < |cs[i].groups| && cs[i].groups[j] == h
  }

  lemma GroupBelowStep(cs: seq<Compt>, k: nat, h: GroupNode)
    requires k < |cs|
    ensures GroupBelow(cs, k, h) <==> (h in cs[k].groups || GroupBelow(cs, k + 1, h))
  {
    if h in cs[k].groups {
      var j :| 0 <= j < |cs[k].groups| && cs[k].groups[j] == h;
      assert GroupBelow(cs, k, h);
    }
    if GroupBelow(cs, k, h) && h !in cs[k].groups {
      var i, j :| k <= i < |cs| && 0 <= j < |cs[i].groups| && cs[i].groups[j] == h;
      assert i != k;
    }
  }

  lemma {:induction false} PreregisterAllMembers(gi: GroupTable, gs: seq<GroupNode>, k: nat, h: GroupNode)
    requires k <= |gs|
    ensures MembersOf(PreregisterAll(gi, gs, k), h) == MembersOf(gi, h)
    ensures HasKey(PreregisterAll(gi, gs, k), h) <==> (HasKey(gi, h) || h in gs[k..])
    decreases |gs| - k
  {
    if k < |gs| {
      PreregisterMembers(gi, gs[k], h);
      PreregisterAllMembers(Preregister(gi, gs[k]), gs, k + 1, h);
      assert gs[k..] == [gs[k]] + gs[k + 1..];
    }
  }

  lemma {:induction false} GroupsAfterMembers(gi: GroupTable, cs: seq<Compt>, k: nat, h: GroupNode)
    requires k <= |cs|
    ensures MembersOf(GroupsAfter(gi, cs, k), h) == MembersOf(gi, h)
    ensures HasKey(GroupsAfter(gi, cs, k), h) <==> (HasKey(gi, h) || GroupBelow(cs, k, h))
    decreases |cs| - k
  {
    if k < |cs| {
      PreregisterAllMembers(gi, cs[k].groups, 0, h);
      GroupsAfterMembers(PreregisterAll(gi, cs[k].groups, 0), cs, k + 1, h);
      GroupBelowStep(cs, k, h);
      assert cs[k].groups[0..] == cs[k].groups;
    }
  }

  /**
   * Without an orphaned endoplasmic mesh, the group table `writeCompt`
   * returns holds exactly the groups found below the compartments, each
   * with no members.
   */
  lemma WriteComptGroups(st: State, cs: seq<Compt>, h: GroupNode)
    requires !SomeOrphan(cs)
    ensures var (st', _, _) := WriteComptSpec(st, cs);
      MembersOf(st'.groupInfo, h) == [] &&
      (HasKey(st'.groupInfo, h) <==> GroupBelow(cs, 0, h))
  {
    ComptsFromWritten(st.(groupInfo := []), {}, cs, 0);
    GroupsAfterMembers([], cs, 0, h);
  }

  lemma {:induction false} PreregisterAllUnique(gi: GroupTable, gs: seq<GroupNode>, k: nat)
    requires k <= |gs| && UniqueKeys(gi)
    ensures UniqueKeys(PreregisterAll(gi, gs, k))
    decreases |gs| - k
  {
    if k < |gs| {
      UpdatesKeepUniqueKeys(gi, gs[k], "");
      PreregisterAllUnique(Preregister(gi, gs[k]), gs, k + 1);
    }
  }

  lemma {:induction false} ComptsFromKeeps(st: State, ids: set<Ref>, cs: seq<Compt>, k: nat)
    requires k <= |cs| && UniqueKeys(st.groupInfo)
    ensures var st' := ComptsFrom(st, ids, cs, k).0;
      UniqueKeys(st'.groupInfo) && st'.unitDefs == st.unitDefs
    decreases |cs| - k
  {
    if k < |cs| {
      var c := cs[k];
      if !(c.mesh.EndoMesh? && c.mesh.surround !in ids + {c.ref}) {
        PreregisterAllUnique(st.groupInfo, c.groups, 0);
        ComptsFromKeeps(ComptStep(st, c), ids + {c.ref}, cs, k + 1);
      }
    }
  }

  /** `writeCompt` touches no unit definition and enters each group once. */
  lemma WriteComptKeeps(st: State, cs: seq<Compt>)
    ensures var st' := WriteComptSpec(st, cs).0;
      UniqueKeys(st'.groupInfo) && st'.unitDefs == st.unitDefs
  {
    ComptsFromKeeps(st.(groupInfo := []), {}, cs, 0);
  }
}
