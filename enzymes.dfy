/**
 * `writeEnz`. An explicit enzyme becomes two reactions: complex formation
 * (enzyme and substrates to complex, reversible, constants `k1` and `k2`)
 * and product formation (complex to products and enzyme, irreversible,
 * constant `k3`). Each is written only when its neighbours are there: one
 * distinct enzyme parent, and for the first also substrates and a
 * complex, for the second a complex. A Michaelis-Menten enzyme becomes one
 * reaction with the enzyme as modifier and constants `Km` and `kcat`.
 *
 * `listofname` and `getSubprd` overwrite `nameList_` as the checks go;
 * the complex-formation reaction files the first complex's id, the head
 * of that list, under the enzyme's group.
 */
module Enzymes {
  import opened Wrappers
  import opened MooseTree
  import opened Units
  import opened RateLaw
  import opened Elements
  import opened Sbml
  import opened Passes

  /** The checks of the complex-formation stage all pass. */
  predicate ComplexFound(k: EnzKind)
    requires k.Explicit?
  {
    k.enzOut != [] && |ListOfName(k.enzOut, true)| == 1 && k.subs != [] && k.cplx != []
  }

  /** `nameList_` after the complex-formation checks, starting from `nl`. */
  function ComplexCheckNames(k: EnzKind, nl: seq<string>): seq<string>
    requires k.Explicit?
  {
    if k.enzOut == [] then nl
    else if |ListOfName(k.enzOut, true)| != 1 || k.subs == [] then ListOfName(k.enzOut, true)
    else if k.cplx == [] then ListOfName(k.subs, true)
    else ListOfName(k.cplx, true)
  }

  /** The complex-formation reaction, from the substrate and complex lookups. */
  function ComplexRecord(e: Enz, id: string, compt: string, s: Subprd, p: Subprd): Reaction
    requires e.kind.Explicit?
    requires s.count.Some? && s.count.value.0 > 0 && p.count.Some? && p.count.value.0 > 0
  {
    Reaction(id, DisplayName(e.ref), true, NotesOf(e.info), s.refs, p.refs, [],
             compt + " * ( k1 * " + s.count.value.1 + " -  k2  * " + p.count.value.1 + " )",
             [Param("k1", e.kind.k1, OrderName(s.count.value.0 - 1)),
              Param("k2", e.kind.k2, OrderName(p.count.value.0 - 1))])
  }

  /** The substrate lookup of complex formation: the enzyme parent and the substrates. */
  function ComplexSubs(st: State, e: Enz): Subprd
    requires e.kind.Explicit?
  {
    GetSubprdSpec(Sub, e.kind.enzOut + e.kind.subs, true, st.constTrue, ComplexCheckNames(e.kind, st.nameList))
  }

  /** The product lookup of complex formation: the complexes. */
  function ComplexPrds(st: State, e: Enz, nl: seq<string>): Subprd
    requires e.kind.Explicit?
  {
    GetSubprdSpec(Prd, e.kind.cplx, true, st.constTrue, nl)
  }

  /** The complex-formation stage of an explicit enzyme in compartment `compt`. */
  function ComplexStage(st: State, e: Enz, compt: string): State
    requires e.kind.Explicit?
  {
    var k := e.kind;
    if !ComplexFound(k) then st.(nameList := ComplexCheckNames(k, st.nameList))
    else
      var s := ComplexSubs(st, e);
      GetSubprdFound(Sub, k.enzOut + k.subs, true, st.constTrue, ComplexCheckNames(k, st.nameList));
      var p := ComplexPrds(st, e, s.nameList);
      GetSubprdFound(Prd, k.cplx, true, st.constTrue, s.nameList);
      ComplexWrite(st, e, compt, s, p)
  }

  /**
   * The writes of complex formation: the reaction, the units of `k1` and
   * `k2`, the name list, and the head of that list filed under the group.
   */
  function ComplexWrite(st: State, e: Enz, compt: string, s: Subprd, p: Subprd): State
    requires e.kind.Explicit?
    requires s.count.Some? && s.count.value.0 > 0 && p.count.Some? && p.count.value.0 > 0 && |p.nameList| > 0
  {
    var g := FiledGroup(e.info, e.up);
    st.(reactions := st.reactions + [ComplexRecord(e, TaggedId(e.ref, "Complex_formation_"), compt, s, p)],
        unitDefs := Register(Register(st.unitDefs, OrderDef(s.count.value.0 - 1)), OrderDef(p.count.value.0 - 1)),
        nameList := p.nameList,
        groupInfo := if g.Some? then AddMember(st.groupInfo, g.value, p.nameList[0]) else st.groupInfo)
  }

  /**
   * The checks of the product-formation stage pass: one distinct enzyme
   * parent and a complex (products are not required).
   */
  predicate ProductFound(k: EnzKind)
    requires k.Explicit?
  {
    k.enzOut != [] && |ListOfName(k.enzOut, true)| == 1 && k.cplx != []
  }

  /** `nameList_` after the product-formation checks. */
  function ProductCheckNames(k: EnzKind, nl: seq<string>): seq<string>
    requires k.Explicit?
  {
    if k.enzOut == [] then nl
    else if |ListOfName(k.enzOut, true)| != 1 then ListOfName(k.enzOut, true)
    else if k.cplx == [] then ListOfName(k.cplx, true)
    else if k.prds == [] then ListOfName(k.enzOut, true)
    else ListOfName(k.prds, true)
  }

  /** The product-formation reaction: irreversible, without notes. */
  function ProductRecord(e: Enz, id: string, compt: string, s: Subprd, p: Subprd): Reaction
    requires e.kind.Explicit?
    requires s.count.Some? && s.count.value.0 > 0
  {
    Reaction(id, DisplayName(e.ref), false, None, s.refs, p.refs, [],
             compt + " * k3*" + s.count.value.1,
             [Param("k3", e.kind.k3, OrderName(s.count.value.0 - 1))])
  }

  /** The substrate lookup of product formation: the complexes. */
  function ProductSubs(st: State, e: Enz): Subprd
    requires e.kind.Explicit?
  {
    GetSubprdSpec(Sub, e.kind.cplx, true, st.constTrue, ProductCheckNames(e.kind, st.nameList))
  }

  /** The product lookup of product formation: the products, then the enzyme parent. */
  function ProductPrds(st: State, e: Enz, nl: seq<string>): Subprd
    requires e.kind.Explicit?
  {
    GetSubprdSpec(Prd, e.kind.prds + e.kind.enzOut, true, st.constTrue, nl)
  }

  /** The product-formation stage; it files nothing under a group. */
  function ProductStage(st: State, e: Enz, compt: string): State
    requires e.kind.Explicit?
  {
    var k := e.kind;
    if !ProductFound(k) then st.(nameList := ProductCheckNames(k, st.nameList))
    else
      var s := ProductSubs(st, e);
      GetSubprdFound(Sub, k.cplx, true, st.constTrue, ProductCheckNames(k, st.nameList));
      var p := ProductPrds(st, e, s.nameList);
      st.(reactions := st.reactions + [ProductRecord(e, TaggedId(e.ref, "Product_formation_"), compt, s, p)],
          unitDefs := Register(st.unitDefs, OrderDef(s.count.value.0 - 1)),
          nameList := p.nameList)
  }

  /** The power of `Km`: written only for more than one substrate. */
  function KmPower(nSubs: nat): (k: string)
    ensures nSubs <= 1 ==> k == ""
    ensures nSubs > 1 ==> k == "^" + Strings.NatToString(nSubs)
  {
    if nSubs > 1 then "^" + Strings.NatToString(nSubs) else ""
  }

  /** `compt * ( kcat * S * M/(Km[^n] + S))`. */
  function MMFormula(compt: string, s: string, m: string, nSubs: nat): string
  {
    compt + " * ( kcat * " + s + " * " + m + "/(Km" + KmPower(nSubs) + " + " + s + "))"
  }

  /** The reaction of a Michaelis-Menten enzyme. */
  function MMRecord(e: Enz, id: string, compt: string, s: Subprd, m: Subprd, p: Subprd): Reaction
    requires e.kind.MichaelisMenten?
    requires s.count.Some? && m.count.Some? && p.count.Some?
  {
    Reaction(id, DisplayName(e.ref), true, NotesOf(e.info), s.refs, p.refs, m.refs,
             MMFormula(compt, s.count.value.1, m.count.value.1, |e.kind.subs|),
             [Param("Km", e.kind.km, KmDef.id), Param("kcat", e.kind.kcat, OrderName(0))])
  }

  /** The three lookups of a Michaelis-Menten enzyme: substrates, modifiers (`enzDest`), products. */
  function MMSubs(st: State, e: Enz): Subprd
    requires e.kind.MichaelisMenten?
  {
    GetSubprdSpec(Sub, e.kind.subs, false, st.constTrue, st.nameList)
  }

  function MMMods(st: State, e: Enz, nl: seq<string>): Subprd
    requires e.kind.MichaelisMenten?
  {
    GetSubprdSpec(Mod, e.kind.enzDest, false, st.constTrue, nl)
  }

  function MMPrds(st: State, e: Enz, nl: seq<string>): Subprd
    requires e.kind.MichaelisMenten?
  {
    GetSubprdSpec(Prd, e.kind.prds, false, st.constTrue, nl)
  }

  /** The loop body of the Michaelis-Menten branch, once the compartment is known. */
  function MMStage(st: State, e: Enz, compt: string): (State, Status)
    requires e.kind.MichaelisMenten?
  {
    var id := CleanId(e.ref);
    var g := FiledGroup(e.info, e.up);
    var gi := if g.Some? then AddMember(st.groupInfo, g.value, id) else st.groupInfo;
    var s := MMSubs(st, e);
    var m := MMMods(st, e, s.nameList);
    var p := MMPrds(st, e, m.nameList);
    if s.count.None? || m.count.None? || p.count.None? then (st.(groupInfo := gi), Raised)
    else
      (st.(reactions := st.reactions + [MMRecord(e, id, compt, s, m, p)],
           unitDefs := Register(Register(st.unitDefs, KmDef), OrderDef(0)),
           groupInfo := gi, nameList := p.nameList),
       Running)
  }

  /** The loop body of `writeEnz` for one enzyme. */
  function EnzStep(st: State, e: Enz): (State, Status)
  {
    match e.kind
    case OtherEnz => (st, Running)
    case Explicit(_, _, _, _, _, _, _) =>
      if e.compartment.None? then (st, Stopped)
      else
        var compt := RawId(e.compartment.value);
        (ProductStage(ComplexStage(st, e, compt), e, compt), Running)
    case MichaelisMenten(_, _, subs, prds, _) =>
      if subs == [] || prds == [] then (st, Running)
      else if e.compartment.None? then (st, Stopped)
      else MMStage(st, e, RawId(e.compartment.value))
  }

  function WriteEnzSpec(st: State, enzs: seq<Enz>): (State, Status)
  {
    Pass(EnzStep, st, enzs, 0)
  }

  /** An enzyme of any other class is skipped. */
  lemma OtherSkipped(st: State, e: Enz)
    requires e.kind.OtherEnz?
    ensures EnzStep(st, e) == (st, Running)
  {
  }

  /**
   * An explicit enzyme ends the pass exactly when its compartment lookup
   * fails; otherwise it never raises and adds the reactions the two
   * stages find, complex formation first. A complex-formation reaction
   * always comes with a product-formation one.
   */
  lemma ExplicitStatus(st: State, e: Enz)
    requires e.kind.Explicit?
    ensures var (st', status) := EnzStep(st, e);
      status != Raised && (status == Stopped <==> e.compartment.None?) &&
      (status == Stopped ==> st' == st) &&
      (ComplexFound(e.kind) ==> ProductFound(e.kind))
  {
  }

  /**
   * The complex-formation stage appends its reaction exactly when its
   * checks pass, and then files the first complex's clean id (not the
   * reaction's id) under the enzyme's group.
   */
  lemma ComplexStageEffect(st: State, e: Enz, compt: string, h: GroupNode)
    requires e.kind.Explicit?
    ensures var st' := ComplexStage(st, e, compt);
      (!ComplexFound(e.kind) ==> st' == st.(nameList := ComplexCheckNames(e.kind, st.nameList))) &&
      (ComplexFound(e.kind) ==>
         st'.reactions == st.reactions + [ComplexRecord(e, TaggedId(e.ref, "Complex_formation_"), compt,
                                                        ComplexSubs(st, e), ComplexPrds(st, e, ComplexSubs(st, e).nameList))] &&
         MembersOf(st'.groupInfo, h) ==
           if FiledGroup(e.info, e.up) == Some(h) then MembersOf(st.groupInfo, h) + [CleanId(e.kind.cplx[0])]
           else MembersOf(st.groupInfo, h))
  {
    var k := e.kind;
    if ComplexFound(k) {
      var s := ComplexSubs(st, e);
      GetSubprdFound(Prd, k.cplx, true, st.constTrue, s.nameList);
      var g := FiledGroup(e.info, e.up);
      if g.Some? {
        AddMemberMembers(st.groupInfo, g.value, CleanId(k.cplx[0]), h);
      }
    }
  }

  /**
   * Complex formation: the enzyme parent and the substrates react to the
   * complexes; the rate is `k1` times the substrate side minus `k2` times
   * the complex side, scaled by the compartment; each constant's unit
   * follows the size of its side.
   */
  lemma ComplexSubsFound(st: State, e: Enz)
    requires e.kind.Explicit? && e.kind.enzOut != []
    ensures var items := e.kind.enzOut + e.kind.subs;
      ComplexSubs(st, e).count == Some((|items|, RateExpr(Counter(items))))
  {
    var k := e.kind;
    var items := k.enzOut + k.subs;
    var nl := ComplexCheckNames(k, st.nameList);
    assert ComplexSubs(st, e) == GetSubprdSpec(Sub, items, true, st.constTrue, nl);
    GetSubprdFound(Sub, items, true, st.constTrue, nl);
  }

  lemma ComplexPrdsFound(st: State, e: Enz, nl: seq<string>)
    requires e.kind.Explicit? && e.kind.cplx != []
    ensures ComplexPrds(st, e, nl).count == Some((|e.kind.cplx|, RateExpr(Counter(e.kind.cplx))))
  {
    assert ComplexPrds(st, e, nl) == GetSubprdSpec(Prd, e.kind.cplx, true, st.constTrue, nl);
    GetSubprdFound(Prd, e.kind.cplx, true, st.constTrue, nl);
  }

  lemma ComplexRecordFields(e: Enz, id: string, compt: string, s: Subprd, p: Subprd,
                            ns: nat, se: string, np: nat, pe: string)
    requires e.kind.Explicit? && ns > 0 && np > 0
    requires s.count == Some((ns, se)) && p.count == Some((np, pe))
    ensures var r := ComplexRecord(e, id, compt, s, p);
      r.id == id && r.reversible && r.notes == NotesOf(e.info) &&
      r.reactants == s.refs && r.products == p.refs && r.modifiers == [] &&
      r.formula == compt + " * ( k1 * " + se + " -  k2  * " + pe + " )" &&
      r.params == [Param("k1", e.kind.k1, OrderName(ns - 1)), Param("k2", e.kind.k2, OrderName(np - 1))]
  {
  }

  /**
   * The product-formation stage appends its reaction exactly when its
   * checks pass, and files nothing under a group.
   */
  lemma ProductStageEffect(st: State, e: Enz, compt: string)
    requires e.kind.Explicit?
    ensures var st' := ProductStage(st, e, compt);
      st'.groupInfo == st.groupInfo &&
      (!ProductFound(e.kind) ==> st' == st.(nameList := ProductCheckNames(e.kind, st.nameList))) &&
      (ProductFound(e.kind) ==>
         st'.reactions == st.reactions + [ProductRecord(e, TaggedId(e.ref, "Product_formation_"), compt,
                                                        ProductSubs(st, e), ProductPrds(st, e, ProductSubs(st, e).nameList))])
  {
  }

  /**
   * Product formation: the complexes react to the products followed by
   * the enzyme parent, even when there are no products; the rate is `k3`
   * times the complex side, scaled by the compartment.
   */
  lemma ProductSubsFound(st: State, e: Enz)
    requires e.kind.Explicit? && e.kind.cplx != []
    ensures ProductSubs(st, e).count == Some((|e.kind.cplx|, RateExpr(Counter(e.kind.cplx))))
  {
    var nl := ProductCheckNames(e.kind, st.nameList);
    assert ProductSubs(st, e) == GetSubprdSpec(Sub, e.kind.cplx, true, st.constTrue, nl);
    GetSubprdFound(Sub, e.kind.cplx, true, st.constTrue, nl);
  }

  lemma ProductPrdsFound(st: State, e: Enz, nl: seq<string>)
    requires e.kind.Explicit? && e.kind.enzOut != []
    ensures var items := e.kind.prds + e.kind.enzOut;
      ProductPrds(st, e, nl).count == Some((|items|, RateExpr(Counter(items))))
  {
    var items := e.kind.prds + e.kind.enzOut;
    assert ProductPrds(st, e, nl) == GetSubprdSpec(Prd, items, true, st.constTrue, nl);
    GetSubprdFound(Prd, items, true, st.constTrue, nl);
  }

  lemma ProductRecordFields(e: Enz, id: string, compt: string, s: Subprd, p: Subprd, ns: nat, se: string)
    requires e.kind.Explicit? && ns > 0
    requires s.count == Some((ns, se))
    ensures var r := ProductRecord(e, id, compt, s, p);
      r.id == id && !r.reversible && r.notes.None? &&
      r.reactants == s.refs && r.products == p.refs && r.modifiers == [] &&
      r.formula == compt + " * k3*" + se &&
      r.params == [Param("k3", e.kind.k3, OrderName(ns - 1))]
  {
  }

  /** The products of complex formation: one reference per distinct complex. */
  lemma ComplexRefs(st: State, e: Enz, nl: seq<string>)
    requires e.kind.Explicit?
    ensures var d := Distinct(e.kind.cplx); var p := ComplexPrds(st, e, nl);
      |p.refs| == |d| && forall i :: 0 <= i < |d| ==> p.refs[i].species == CleanId(d[i])
  {
    GetSubprdRefs(Prd, e.kind.cplx, true, st.constTrue, nl);
  }

  /**
   * A Michaelis-Menten enzyme with substrates and products ends the pass
   * when its compartment lookup fails and raises when it has no `enzDest`
   * neighbour; a list missing either side is skipped.
   */
  lemma MMStatus(st: State, e: Enz)
    requires e.kind.MichaelisMenten?
    ensures var (st', status) := EnzStep(st, e);
      var k := e.kind;
      (k.subs == [] || k.prds == [] ==> (st', status) == (st, Running)) &&
      (k.subs != [] && k.prds != [] ==>
         (status == Stopped <==> e.compartment.None?) &&
         (status == Raised <==> e.compartment.Some? && k.enzDest == []))
  {
  }

  /** The three lookups of a Michaelis-Menten enzyme with substrates, products and an `enzDest` succeed. */
  lemma MMLookups(st: State, e: Enz, nl: seq<string>, nl': seq<string>)
    requires e.kind.MichaelisMenten? && e.kind.subs != [] && e.kind.prds != [] && e.kind.enzDest != []
    ensures var k := e.kind;
      MMSubs(st, e).count == Some((|k.subs|, RateExpr(Counter(k.subs)))) && MMSubs(st, e).nameList == [] &&
      MMMods(st, e, nl).count == Some((|k.enzDest|, RateExpr(Counter(k.enzDest)))) &&
      MMMods(st, e, nl).nameList == [] &&
      MMPrds(st, e, nl').count == Some((|k.prds|, RateExpr(Counter(k.prds)))) && MMPrds(st, e, nl').nameList == []
  {
    var k := e.kind;
    GetSubprdFound(Sub, k.subs, false, st.constTrue, st.nameList);
    GetSubprdFound(Mod, k.enzDest, false, st.constTrue, nl);
    GetSubprdFound(Prd, k.prds, false, st.constTrue, nl');
  }

  /** The Michaelis-Menten stage writes the reaction once all three lookups succeed. */
  lemma MMStageWritten(st: State, e: Enz, compt: string)
    requires e.kind.MichaelisMenten? && e.kind.subs != [] && e.kind.prds != [] && e.kind.enzDest != []
    ensures var (st', status) := MMStage(st, e, compt);
      status == Running &&
      st'.reactions == st.reactions + [MMRecord(e, CleanId(e.ref), compt,
                                                MMSubs(st, e), MMMods(st, e, []), MMPrds(st, e, []))] &&
      st'.unitDefs == Register(Register(st.unitDefs, KmDef), OrderDef(0))
  {
    MMLookups(st, e, [], []);
  }

  /**
   * A written Michaelis-Menten enzyme: one reaction with the enzyme's
   * clean id; the units of `Km` and of `kcat` (order zero) are registered.
   */
  lemma MMWritten(st: State, e: Enz)
    requires e.kind.MichaelisMenten? && e.kind.subs != [] && e.kind.prds != [] && e.kind.enzDest != []
    requires e.compartment.Some?
    ensures var (st', status) := EnzStep(st, e);
      status == Running &&
      st'.reactions == st.reactions + [MMRecord(e, CleanId(e.ref), RawId(e.compartment.value),
                                                MMSubs(st, e), MMMods(st, e, []), MMPrds(st, e, []))] &&
      st'.unitDefs == Register(Register(st.unitDefs, KmDef), OrderDef(0))
  {
    var compt := RawId(e.compartment.value);
    assert EnzStep(st, e) == MMStage(st, e, compt);
    MMStageWritten(st, e, compt);
  }

  /** Both units a Michaelis-Menten law uses are defined after registration. */
  lemma MMUnitsDefined(defs: seq<UnitDef>)
    ensures var d := Register(Register(defs, KmDef), OrderDef(0));
      HasId(d, "mmole_per_litre") && HasId(d, "per_second")
  {
    RegisterKeepsIds(Register(defs, KmDef), OrderDef(0), "mmole_per_litre");
  }

  /** A Michaelis-Menten enzyme with both sides is filed under its group by its clean id. */
  lemma MMGroup(st: State, e: Enz, h: GroupNode)
    requires e.kind.MichaelisMenten? && e.kind.subs != [] && e.kind.prds != [] && e.compartment.Some?
    ensures MembersOf(EnzStep(st, e).0.groupInfo, h) ==
      if FiledGroup(e.info, e.up) == Some(h) then MembersOf(st.groupInfo, h) + [CleanId(e.ref)]
      else MembersOf(st.groupInfo, h)
  {
    var g := FiledGroup(e.info, e.up);
    if g.Some? {
      AddMemberMembers(st.groupInfo, g.value, CleanId(e.ref), h);
    }
  }

  /**
   * The Michaelis-Menten law: `kcat` times the substrate and enzyme
   * expressions over `Km` (raised to the number of substrates when there
   * are several) plus the substrate expression.
   */
  lemma MMRecordFields(e: Enz, id: string, compt: string, s: Subprd, m: Subprd, p: Subprd,
                       se: string, me: string)
    requires e.kind.MichaelisMenten? && s.count.Some? && m.count.Some? && p.count.Some?
    requires s.count.value.1 == se && m.count.value.1 == me
    ensures var r := MMRecord(e, id, compt, s, m, p); var n := |e.kind.subs|;
      r.id == id && r.reversible && r.notes == NotesOf(e.info) &&
      r.reactants == s.refs && r.modifiers == m.refs && r.products == p.refs &&
      r.formula == compt + " * ( kcat * " + se + " * " + me + "/(Km" + KmPower(n) + " + " + se + "))" &&
      r.params == [Param("Km", e.kind.km, "mmole_per_litre"), Param("kcat", e.kind.kcat, "per_second")]
  {
  }

  /** An enzyme the pass can handle without stopping or raising. */
  predicate Writable(e: Enz)
  {
    match e.kind
    case OtherEnz => true
    case Explicit(_, _, _, _, _, _, _) => e.compartment.Some?
    case MichaelisMenten(_, _, subs, prds, enzDest) =>
      subs == [] || prds == [] || (e.compartment.Some? && enzDest != [])
  }

  /** The reaction ids an enzyme contributes. */
  function EnzIds(e: Enz): seq<string>
  {
    match e.kind
    case OtherEnz => []
    case Explicit(_, _, _, _, _, _, _) =>
      (if ComplexFound(e.kind) then [TaggedId(e.ref, "Complex_formation_")] else []) +
      (if ProductFound(e.kind) then [TaggedId(e.ref, "Product_formation_")] else [])
    case MichaelisMenten(_, _, subs, prds, _) => if subs == [] || prds == [] then [] else [CleanId(e.ref)]
  }

  lemma ComplexStageIds(st: State, e: Enz, compt: string)
    requires e.kind.Explicit?
    ensures ReactionIds(ComplexStage(st, e, compt).reactions) ==
      ReactionIds(st.reactions) + if ComplexFound(e.kind) then [TaggedId(e.ref, "Complex_formation_")] else []
  {
    var st' := ComplexStage(st, e, compt);
    ComplexStageEffect(st, e, compt, GroupNode(e.ref, e.ref, e.ref, false, None));
    if ComplexFound(e.kind) {
      ReactionIdsAppend(st.reactions, [st'.reactions[|st.reactions|]]);
    }
  }

  lemma ProductStageIds(st: State, e: Enz, compt: string)
    requires e.kind.Explicit?
    ensures ReactionIds(ProductStage(st, e, compt).reactions) ==
      ReactionIds(st.reactions) + if ProductFound(e.kind) then [TaggedId(e.ref, "Product_formation_")] else []
  {
    var st' := ProductStage(st, e, compt);
    ProductStageEffect(st, e, compt);
    if ProductFound(e.kind) {
      ReactionIdsAppend(st.reactions, [st'.reactions[|st.reactions|]]);
    }
  }

  lemma ExplicitStepAppends(s: State, e: Enz)
    requires e.kind.Explicit? && e.compartment.Some?
    ensures EnzStep(s, e).1 == Running
    ensures ReactionIds(EnzStep(s, e).0.reactions) == ReactionIds(s.reactions) + EnzIds(e)
  {
    var compt := RawId(e.compartment.value);
    assert EnzStep(s, e) == (ProductStage(ComplexStage(s, e, compt), e, compt), Running);
    ComplexStageIds(s, e, compt);
    ProductStageIds(ComplexStage(s, e, compt), e, compt);
  }

  lemma MMStepAppends(s: State, e: Enz)
    requires e.kind.MichaelisMenten? && e.kind.subs != [] && e.kind.prds != [] && e.kind.enzDest != []
    requires e.compartment.Some?
    ensures EnzStep(s, e).1 == Running
    ensures ReactionIds(EnzStep(s, e).0.reactions) == ReactionIds(s.reactions) + EnzIds(e)
  {
    MMWritten(s, e);
    var st' := EnzStep(s, e).0;
    ReactionIdsPush(s.reactions, st'.reactions, CleanId(e.ref));
  }

  lemma EnzStepAppends(s: State, e: Enz)
    requires Writable(e)
    ensures EnzStep(s, e).1 == Running
    ensures ReactionIds(EnzStep(s, e).0.reactions) == ReactionIds(s.reactions) + EnzIds(e)
  {
    match e.kind
    case OtherEnz =>
    case Explicit(_, _, _, _, _, _, _) => ExplicitStepAppends(s, e);
    case MichaelisMenten(_, _, subs, prds, _) =>
      if subs != [] && prds != [] {
        MMStepAppends(s, e);
      }
  }

  /**
   * When every enzyme can be handled, the pass runs to the end and adds,
   * in order, each enzyme's reactions: one or two for an explicit enzyme,
   * one for a Michaelis-Menten enzyme with both sides.
   */
  lemma WriteEnzAll(st: State, enzs: seq<Enz>)
    requires forall i :: 0 <= i < |enzs| ==> Writable(enzs[i])
    ensures WriteEnzSpec(st, enzs).1 == Running
    ensures ReactionIds(WriteEnzSpec(st, enzs).0.reactions) == ReactionIds(st.reactions) + Concat(EnzIds, enzs, 0)
  {
    forall s: State, i | 0 <= i < |enzs|
      ensures EnzStep(s, enzs[i]).1 == Running &&
              ReactionIds(EnzStep(s, enzs[i]).0.reactions) == ReactionIds(s.reactions) + EnzIds(enzs[i])
    {
      EnzStepAppends(s, enzs[i]);
    }
    PassAppends(EnzStep, (s: State) => ReactionIds(s.reactions), EnzIds, st, enzs, 0);
  }

  lemma ComplexWriteExtends(st: State, e: Enz, compt: string, s: Subprd, p: Subprd)
    requires e.kind.Explicit?
    requires s.count.Some? && s.count.value.0 > 0 && p.count.Some? && p.count.value.0 > 0 && |p.nameList| > 0
    ensures Extends(st, ComplexWrite(st, e, compt, s, p))
  {
    FilingExtends2(st, ComplexWrite(st, e, compt, s, p), OrderDef(s.count.value.0 - 1), OrderDef(p.count.value.0 - 1),
                   FiledGroup(e.info, e.up), p.nameList[0]);
  }

  lemma ComplexStageExtends(st: State, e: Enz, compt: string)
    requires e.kind.Explicit?
    ensures Extends(st, ComplexStage(st, e, compt))
  {
    var k := e.kind;
    if ComplexFound(k) {
      var s := ComplexSubs(st, e);
      ComplexSubsFound(st, e);
      var p := ComplexPrds(st, e, s.nameList);
      GetSubprdFound(Prd, k.cplx, true, st.constTrue, s.nameList);
      assert ComplexStage(st, e, compt) == ComplexWrite(st, e, compt, s, p);
      ComplexWriteExtends(st, e, compt, s, p);
    } else {
      FilingExtends(st, ComplexStage(st, e, compt), KmDef, None, "");
    }
  }

  lemma ProductStageExtends(st: State, e: Enz, compt: string)
    requires e.kind.Explicit?
    ensures Extends(st, ProductStage(st, e, compt))
  {
    var st' := ProductStage(st, e, compt);
    if ProductFound(e.kind) {
      var s := ProductSubs(st, e);
      ProductSubsFound(st, e);
      FilingExtends(st, st', OrderDef(s.count.value.0 - 1), None, "");
    } else {
      FilingExtends(st, st', KmDef, None, "");
    }
  }

  /** An enzyme step keeps unit ids unique and the groups in their places. */
  lemma EnzStepExtends(st: State, e: Enz)
    ensures Extends(st, EnzStep(st, e).0)
  {
    match e.kind
    case OtherEnz =>
    case Explicit(_, _, _, _, _, _, _) =>
      if e.compartment.Some? {
        var compt := RawId(e.compartment.value);
        ComplexStageExtends(st, e, compt);
        ProductStageExtends(ComplexStage(st, e, compt), e, compt);
        ExtendsTrans(st, ComplexStage(st, e, compt), ProductStage(ComplexStage(st, e, compt), e, compt));
      }
    case MichaelisMenten(_, _, subs, prds, _) =>
      if subs != [] && prds != [] && e.compartment.Some? {
        var compt := RawId(e.compartment.value);
        assert EnzStep(st, e) == MMStage(st, e, compt);
        FilingExtends2(st, EnzStep(st, e).0, KmDef, OrderDef(0), FiledGroup(e.info, e.up), CleanId(e.ref));
      }
  }
}
