/**
 * `mooseWriteSBML`: the document is named after the file name up to its
 * first `.`, starts with the five base unit definitions, and is filled by
 * the passes in order: compartments, species, functions, channels,
 * reactions, enzymes, then the groups. Without a compartment nothing is
 * written; a pass that raises ends the export; a pass that stops early
 * only skips the rest of its own list. Whether libsbml is installed,
 * whether the model path exists, the directory the file goes to and the
 * document's validation are inputs.
 */
module Export {
  import opened Wrappers
  import opened MooseTree
  import opened Units
  import opened Elements
  import opened Sbml
  import opened Passes
  import opened Compartments
  import opened Pools
  import opened Functions
  import Channels
  import Reactions
  import Enzymes
  import opened Groups

  /** The objects below the model path, in the order each search returns them. */
  datatype Model = Model(compts: seq<Compt>, pools: seq<Pool>, funcs: seq<Func>, chans: seq<Chan>,
                         reacs: seq<Reac>, enzs: seq<Enz>)

  /** The model the file holds: its id and its contents. */
  datatype Document = Document(id: string, content: State)

  /**
   * How the export ends: no libsbml (`-2`), no model path, no compartment
   * (with the message returned), a document that fails validation (`-1`),
   * a document written to a file, or an
   * exception raised by a pass.
   */
  datatype Outcome =
    | NoLibSbml
    | NoModelPath
    | NoCompartment(message: string)
    | Invalid
    | Written(doc: Document, file: string)
    | Failed

  const NoComptMessage: string := "Atleast one compartment should exist to write SBML"

  /** The last component of a path, as `os.path.split` returns it. */
  function BaseName(path: string): (b: string)
    ensures '/' !in b
    ensures |b| <= |path| && path[|path| - |b|..] == b
    ensures '/' !in path ==> b == path
    decreases |path|
  {
    if path == [] then []
    else if path[|path| - 1] == '/' then []
    else
      var init := path[..|path| - 1];
      assert path == init + [path[|path| - 1]];
      BaseName(init) + [path[|path| - 1]]
  }

  /** The file name up to its first `.`, or all of it when it has none. */
  function FileStem(name: string): (stem: string)
    ensures '.' !in stem
    ensures stem <= name
    ensures |stem| < |name| ==> name[|stem|] == '.'
    decreases |name|
  {
    if name == [] || name[0] == '.' then []
    else [name[0]] + FileStem(name[1..])
  }

  /** The document before any pass: the base units and nothing else. */
  const Initial: State := State(BaseUnits, [], [], [], [], [], [], [], [])

  /** The passes after `writeCompt`, up to the enzymes; `None` when one raises. */
  function RunPasses(sceneItems: bool, st: State, m: Model): Option<State>
  {
    var (s2, r2) := WriteSpeciesSpec(st, m.pools);
    if r2 == Raised then None
    else
      var s3 := WriteFuncSpec(s2, m.funcs);
      var (s4, r4) := Channels.WriteChannelSpec(s3, m.chans);
      if r4 == Raised then None
      else
        var (s5, r5) := Reactions.WriteReacSpec(sceneItems, s4, m.reacs);
        if r5 == Raised then None
        else
          var (s6, r6) := Enzymes.WriteEnzSpec(s5, m.enzs);
          if r6 == Raised then None else Some(s6)
  }

  /**
   * The end of the export once a compartment exists: the groups are added
   * to what the passes produced and the document is validated.
   */
  function Finish(stem: string, dir: string, validate: Document -> bool, r: Option<State>): (o: Outcome)
    ensures o.Written? || o == Invalid || o == Failed
    ensures o == Failed <==> r.None?
    ensures o.Written? <==> r.Some? && validate(Document(stem, WriteGroupsSpec(r.value)))
    ensures o.Written? ==> o.doc == Document(stem, WriteGroupsSpec(r.value)) && o.file == dir + "/" + stem + ".xml"
  {
    match r
    case None => Failed
    case Some(st) =>
      var doc := Document(stem, WriteGroupsSpec(st));
      if validate(doc) then Written(doc, dir + "/" + stem + ".xml") else Invalid
  }

  /** `mooseWriteSBML(modelpath, filename, sceneitems)`. */
  function MooseWriteSbml(hasLibSbml: bool, pathExists: bool, m: Model, filename: string, dir: string,
                          sceneItems: bool, validate: Document -> bool): Outcome
  {
    if !hasLibSbml then NoLibSbml
    else if !pathExists then NoModelPath
    else
      var (st1, found, err) := WriteComptSpec(Initial, m.compts);
      if !found then NoCompartment(if err != "" then err else NoComptMessage)
      else Finish(FileStem(BaseName(filename)), dir, validate, RunPasses(sceneItems, st1, m))
  }

  /** A name without `.` is its own stem; a stem is its own stem. */
  lemma FileStemFacts(name: string)
    ensures '.' !in name ==> FileStem(name) == name
    ensures FileStem(FileStem(name)) == FileStem(name)
  {
  }

  /**
   * The export fails before any pass without libsbml or without the model
   * path, in that order; it reports a missing compartment exactly when
   * the compartment list is empty or an endoplasmic mesh has no
   * surrounding compartment yet, with the matching message.
   */
  lemma ExportFailures(hasLibSbml: bool, pathExists: bool, m: Model, filename: string, dir: string,
                       sceneItems: bool, validate: Document -> bool)
    ensures var o := MooseWriteSbml(hasLibSbml, pathExists, m, filename, dir, sceneItems, validate);
      (o == NoLibSbml <==> !hasLibSbml) &&
      (o == NoModelPath <==> hasLibSbml && !pathExists) &&
      (o.NoCompartment? <==> hasLibSbml && pathExists && (SomeOrphan(m.compts) || m.compts == [])) &&
      (o.NoCompartment? ==> o.message == if SomeOrphan(m.compts) then EndoError else NoComptMessage)
  {
    WriteComptResult(Initial, m.compts);
  }

  /**
   * A written document is named after the file's stem, passed validation,
   * and goes to `<dir>/<stem>.xml`.
   */
  lemma ExportFile(hasLibSbml: bool, pathExists: bool, m: Model, filename: string, dir: string,
                   sceneItems: bool, validate: Document -> bool)
    ensures var o := MooseWriteSbml(hasLibSbml, pathExists, m, filename, dir, sceneItems, validate);
      o.Written? ==>
        var stem := FileStem(BaseName(filename));
        o.doc.id == stem && '.' !in stem && validate(o.doc) && o.file == dir + "/" + stem + ".xml"
  {
    if hasLibSbml && pathExists {
      var w := WriteComptSpec(Initial, m.compts);
      if w.1 {
        var stem := FileStem(BaseName(filename));
        var r := RunPasses(sceneItems, w.0, m);
        assert MooseWriteSbml(hasLibSbml, pathExists, m, filename, dir, sceneItems, validate) ==
               Finish(stem, dir, validate, r);
      }
    }
  }

  lemma SpeciesPassExtends(st: State, pools: seq<Pool>)
    ensures Extends(st, WriteSpeciesSpec(st, pools).0)
  {
    forall s: State, p: Pool ensures Extends(s, SpeciesStep(s, p).0) {
      SpeciesStepExtends(s, p);
    }
    PassExtends(SpeciesStep, st, pools, 0);
  }

  lemma ChannelPassExtends(st: State, chans: seq<Chan>)
    ensures Extends(st, Channels.WriteChannelSpec(st, chans).0)
  {
    forall s: State, c: Chan ensures Extends(s, Channels.ChanStep(s, c).0) {
      Channels.ChanStepExtends(s, c);
    }
    PassExtends(Channels.ChanStep, st, chans, 0);
  }

  lemma ReacPassExtends(sceneItems: bool, st: State, reacs: seq<Reac>)
    ensures Extends(st, Reactions.WriteReacSpec(sceneItems, st, reacs).0)
  {
    var step := (s, r) => Reactions.ReacStep(sceneItems, s, r);
    forall s: State, r: Reac ensures Extends(s, step(s, r).0) {
      Reactions.ReacStepExtends(sceneItems, s, r);
    }
    PassExtends(step, st, reacs, 0);
  }

  lemma EnzPassExtends(st: State, enzs: seq<Enz>)
    ensures Extends(st, Enzymes.WriteEnzSpec(st, enzs).0)
  {
    forall s: State, e: Enz ensures Extends(s, Enzymes.EnzStep(s, e).0) {
      Enzymes.EnzStepExtends(s, e);
    }
    PassExtends(Enzymes.EnzStep, st, enzs, 0);
  }

  /** Every pass from species to enzymes keeps what `Extends` states. */
  lemma RunPassesExtends(sceneItems: bool, st: State, m: Model)
    ensures RunPasses(sceneItems, st, m).Some? ==> Extends(st, RunPasses(sceneItems, st, m).value)
  {
    var s2 := WriteSpeciesSpec(st, m.pools).0;
    SpeciesPassExtends(st, m.pools);
    var s3 := WriteFuncSpec(s2, m.funcs);
    WriteFuncOnlyRules(s2, m.funcs);
    assert Extends(s2, s3);
    var s4 := Channels.WriteChannelSpec(s3, m.chans).0;
    ChannelPassExtends(s3, m.chans);
    var s5 := Reactions.WriteReacSpec(sceneItems, s4, m.reacs).0;
    ReacPassExtends(sceneItems, s4, m.reacs);
    var s6 := Enzymes.WriteEnzSpec(s5, m.enzs).0;
    EnzPassExtends(s5, m.enzs);
    ExtendsChain(st, s2, s3, s4, s5, s6);
    assert RunPasses(sceneItems, st, m).Some? ==> RunPasses(sceneItems, st, m).value == s6;
  }

  /** `Extends` carried along the five passes. */
  lemma ExtendsChain(s1: State, s2: State, s3: State, s4: State, s5: State, s6: State)
    requires Extends(s1, s2) && Extends(s2, s3) && Extends(s3, s4) && Extends(s4, s5) && Extends(s5, s6)
    ensures Extends(s1, s6)
  {
    ExtendsTrans(s1, s2, s3);
    ExtendsTrans(s1, s3, s4);
    ExtendsTrans(s1, s4, s5);
    ExtendsTrans(s1, s5, s6);
  }

  /** The document's contents after the passes extended the state `writeCompt` left. */
  lemma ContentFacts(st1: State, st: State, cs: seq<Compt>)
    requires Extends(st1, st) && st1.unitDefs == BaseUnits
    requires |st1.compartments| == |cs| && forall i :: 0 <= i < |cs| ==> st1.compartments[i] == ExpectedRecord(cs[i])
    ensures var c := WriteGroupsSpec(st);
      UniqueIds(c.unitDefs) && BaseUnits <= c.unitDefs &&
      |c.compartments| == |cs| && forall i :: 0 <= i < |cs| ==> c.compartments[i] == ExpectedRecord(cs[i])
  {
    BaseUnitsUnique();
    WriteGroupsEntries(st);
  }

  /** The state `writeCompt` leaves when it finds a compartment. */
  lemma AfterCompartments(cs: seq<Compt>)
    requires WriteComptSpec(Initial, cs).1
    ensures var st1 := WriteComptSpec(Initial, cs).0;
      !SomeOrphan(cs) && st1.unitDefs == BaseUnits && UniqueKeys(st1.groupInfo) &&
      |st1.compartments| == |cs| && forall i :: 0 <= i < |cs| ==> st1.compartments[i] == ExpectedRecord(cs[i])
  {
    WriteComptResult(Initial, cs);
    WriteComptKeeps(Initial, cs);
    WriteComptRecords(Initial, cs);
  }

  /**
   * A written document has unit definitions with distinct ids, the five
   * base units first, and one compartment record per compartment, in order.
   */
  lemma ExportUnitsAndCompartments(hasLibSbml: bool, pathExists: bool, m: Model, filename: string, dir: string,
                                   sceneItems: bool, validate: Document -> bool)
    ensures var o := MooseWriteSbml(hasLibSbml, pathExists, m, filename, dir, sceneItems, validate);
      o.Written? ==>
        var c := o.doc.content;
        UniqueIds(c.unitDefs) && BaseUnits <= c.unitDefs &&
        |c.compartments| == |m.compts| &&
        forall i :: 0 <= i < |m.compts| ==> c.compartments[i] == ExpectedRecord(m.compts[i])
  {
    var o := MooseWriteSbml(hasLibSbml, pathExists, m, filename, dir, sceneItems, validate);
    if o.Written? {
      var st1 := WriteComptSpec(Initial, m.compts).0;
      var r := RunPasses(sceneItems, st1, m);
      assert o == Finish(FileStem(BaseName(filename)), dir, validate, r);
      AfterCompartments(m.compts);
      RunPassesExtends(sceneItems, st1, m);
      ContentFacts(st1, r.value, m.compts);
    }
  }

  /** A group in the table `writeCompt` left is emitted after the passes extended it. */
  lemma GroupKept(st1: State, st: State, h: GroupNode)
    requires Extends(st1, st) && HasKey(st1.groupInfo, h)
    ensures var gs := WriteGroupsSpec(st).groups;
      exists i :: 0 <= i < |gs| && gs[i].id == GroupId(h) && gs[i].annotation == GroupAnnotationOf(h)
  {
    HasKeyInKeys(st1.groupInfo, h);
    HasKeyInKeys(st.groupInfo, h);
    GroupEmitted(st, h);
    var k := KeyIndex(st.groupInfo, h);
    assert WriteGroupsSpec(st).groups[|st.groups| + k].id == GroupId(h);
  }

  /**
   * Every group found below a compartment is emitted, even if nothing was
   * filed under it: some group of the written document has its id and
   * its annotation.
   */
  lemma ExportGroups(hasLibSbml: bool, pathExists: bool, m: Model, filename: string, dir: string,
                     sceneItems: bool, validate: Document -> bool, h: GroupNode)
    requires GroupBelow(m.compts, 0, h)
    ensures var o := MooseWriteSbml(hasLibSbml, pathExists, m, filename, dir, sceneItems, validate);
      o.Written? ==>
        exists i :: 0 <= i < |o.doc.content.groups| &&
          o.doc.content.groups[i].id == GroupId(h) && o.doc.content.groups[i].annotation == GroupAnnotationOf(h)
  {
    var o := MooseWriteSbml(hasLibSbml, pathExists, m, filename, dir, sceneItems, validate);
    if o.Written? {
      var st1 := WriteComptSpec(Initial, m.compts).0;
      var r := RunPasses(sceneItems, st1, m);
      assert o == Finish(FileStem(BaseName(filename)), dir, validate, r);
      AfterCompartments(m.compts);
      WriteComptGroups(Initial, m.compts, h);
      RunPassesExtends(sceneItems, st1, m);
      GroupKept(st1, r.value, h);
    }
  }

  /** An object every pass handles without stopping or raising. */
  predicate AllWritable(m: Model)
  {
    (forall i :: 0 <= i < |m.pools| ==> Placed(m.pools[i])) &&
    (forall i :: 0 <= i < |m.chans| ==> Channels.Writable(m.chans[i])) &&
    (forall i :: 0 <= i < |m.reacs| ==> Reactions.Writable(m.reacs[i])) &&
    (forall i :: 0 <= i < |m.enzs| ==> Enzymes.Writable(m.enzs[i]))
  }

  /**
   * When every object can be handled, no pass raises: the export writes
   * the document or reports it invalid, once libsbml, the path and a
   * compartment are there.
   */
  lemma ExportCompletes(m: Model, filename: string, dir: string, sceneItems: bool, validate: Document -> bool)
    requires AllWritable(m) && m.compts != [] && !SomeOrphan(m.compts)
    ensures var o := MooseWriteSbml(true, true, m, filename, dir, sceneItems, validate);
      o.Written? || o == Invalid
  {
    WriteComptResult(Initial, m.compts);
    var st1 := WriteComptSpec(Initial, m.compts).0;
    WriteSpeciesAll(st1, m.pools);
    var s3 := WriteFuncSpec(WriteSpeciesSpec(st1, m.pools).0, m.funcs);
    Channels.WriteChannelAll(s3, m.chans);
    var s4 := Channels.WriteChannelSpec(s3, m.chans).0;
    Reactions.WriteReacAll(sceneItems, s4, m.reacs);
    var s5 := Reactions.WriteReacSpec(sceneItems, s4, m.reacs).0;
    Enzymes.WriteEnzAll(s5, m.enzs);
  }

  /**
   * An enzyme complex without `info`, reached by the species pass, makes
   * the export fail with no document, once libsbml, the path and a
   * compartment are there.
   */
  lemma ExportCplxFails(m: Model, filename: string, dir: string, sceneItems: bool, validate: Document -> bool, j: nat)
    requires m.compts != [] && !SomeOrphan(m.compts)
    requires j < |m.pools| && forall i :: 0 <= i < j ==> Placed(m.pools[i])
    requires !IsXfer(m.pools[j]) && m.pools[j].compartment.Some? && CplxWithoutInfo(m.pools[j])
    ensures MooseWriteSbml(true, true, m, filename, dir, sceneItems, validate) == Failed
  {
    WriteComptResult(Initial, m.compts);
    WriteSpeciesRaises(WriteComptSpec(Initial, m.compts).0, m.pools, j);
  }
}
