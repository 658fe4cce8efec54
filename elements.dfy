/**
 * The MOOSE objects each pass of the SBML writer visits, as input
 * records: for each object the fields and neighbour lists that pass reads.
 * A compartment lookup that does not end at a chemical compartment is
 * `None`. The lists a pass walks are given in the order the tree's
 * wildcard search returns them.
 */
module Elements {
  import opened Wrappers
  import opened MooseTree

  /** The `ChemCompt` classes, with the fields `writeCompt` reads from each. */
  datatype Mesh =
    | CubeMesh
    | CylMesh(totLength: real, diffLength: real)
    | EndoMesh(surround: Ref)
    | NeuroMesh
    | SpineMesh
    | PsdMesh

  function MeshClassName(m: Mesh): string
  {
    match m
    case CubeMesh => "CubeMesh"
    case CylMesh(_, _) => "CylMesh"
    case EndoMesh(_) => "EndoMesh"
    case NeuroMesh => "NeuroMesh"
    case SpineMesh => "SpineMesh"
    case PsdMesh => "PsdMesh"
  }

  /**
   * A compartment: its volume in cubic metres, `numDimensions`, and the
   * `Neutral` objects found below it.
   */
  datatype Compt = Compt(ref: Ref, mesh: Mesh, volume: real, numDimensions: int,
                         membraneBound: bool, info: Option<Info>, groups: seq<GroupNode>)

  /**
   * A pool (`PoolBase`). `buffered` is true for `BufPool` and
   * `ZombieBufPool`; `hasFunc` says whether a child named `func` exists,
   * and `functionInputs` gives, for each child of class `Function` or
   * `ZombieFunction` in order, how many inputs its `x` field has.
   * `parentIsEnz` says whether the pool's parent is an enzyme (`EnzBase`).
   */
  datatype Pool = Pool(ref: Ref, buffered: bool, compartment: Option<Ref>, concInit: real,
                       hasFunc: bool, functionInputs: seq<nat>, info: Option<Info>,
                       up: seq<Ancestor>, diffConst: real, motorConst: real, parentIsEnz: bool)

  /**
   * A `Function` object: the class name of its parent, its expression,
   * the targets of its `valueOut` message and the inputs of its `x` field.
   */
  datatype Func = Func(parent: Ref, parentClass: string, expr: string,
                       valueOut: seq<Ref>, inputs: seq<Ref>)

  /** A concentration channel (`ConcChan`) with its `in`, `out` and `setNumChan` neighbours. */
  datatype Chan = Chan(ref: Ref, compartment: Option<Ref>, permeability: real, info: Option<Info>,
                       up: seq<Ancestor>, ins: seq<Ref>, outs: seq<Ref>, setNumChan: seq<Ref>)

  /**
   * A mass-action reaction (`ReacBase`). `subCompartment` is the
   * compartment of its first substrate, the one its rate law uses.
   */
  datatype Reac = Reac(ref: Ref, kf: real, kb: real, info: Option<Info>, up: seq<Ancestor>,
                       subs: seq<Ref>, prds: seq<Ref>, subCompartment: Option<Ref>)

  /**
   * The enzyme classes (`EnzBase`): an explicit enzyme (`Enz`,
   * `ZombieEnz`) with its `enzOut`, `sub`, `cplxDest` and `prd`
   * neighbours; a Michaelis-Menten enzyme (`MMenz`, `ZombieMMenz`) with
   * `sub`, `prd` and `enzDest`; and any other enzyme class.
   */
  datatype EnzKind =
    | Explicit(k1: real, k2: real, k3: real, enzOut: seq<Ref>, subs: seq<Ref>, cplx: seq<Ref>, prds: seq<Ref>)
    | MichaelisMenten(km: real, kcat: real, subs: seq<Ref>, prds: seq<Ref>, enzDest: seq<Ref>)
    | OtherEnz

  datatype Enz = Enz(ref: Ref, kind: EnzKind, compartment: Option<Ref>, info: Option<Info>, up: seq<Ancestor>)

  /**
   * The group an object is filed under: its nearest container, when that
   * is a `Neutral` and the object has an `info` annotator.
   */
  function FiledGroup(info: Option<Info>, up: seq<Ancestor>): Option<GroupNode>
  {
    if info.Some? then GroupOf(up) else None
  }
}
