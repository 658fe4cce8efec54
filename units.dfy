/**
 * SBML unit definitions (section 4.4 of SBML Level 3 Version 1 Core) as the
 * writer creates them: the five definitions every document starts with,
 * the unit of a rate constant of each reaction order, the Michaelis
 * constant and the channel permeability. A definition is registered by id:
 * it is appended only when no definition of that id exists yet.
 */
module Units {
  import opened Wrappers
  import opened Strings

  datatype UnitKind = Litre | Mole | Second | Metre

  /** One `<unit>`: `(multiplier * 10^scale * kind)^exponent`. */
  datatype Unit = Unit(kind: UnitKind, exponent: int, multiplier: int, scale: int)

  datatype UnitDef = UnitDef(id: string, units: seq<Unit>)

  /** `writeUnits`: volume, substance, length, area and time. */
  const BaseUnits: seq<UnitDef> := [
    UnitDef("volume", [Unit(Litre, 1, 1, 0)]),
    UnitDef("substance", [Unit(Mole, 1, 1, -3)]),
    UnitDef("length", [Unit(Metre, 1, 1, 0)]),
    UnitDef("area", [Unit(Metre, 2, 1, 0)]),
    UnitDef("time", [Unit(Second, 1, 1, 0)])]

  /** The id `parmUnit` gives the rate-constant unit of a reaction of order `order + 1`. */
  function OrderName(order: nat): string
  {
    if order == 0 then "per_second"
    else if order == 1 then "litre_per_mmole_per_second"
    else if order == 2 then "sq_litre_per_mmole_sq_per_second"
    else "litre_per_mmole_" + NatToString(order) + "_per_second"
  }

  /** `parmUnit`'s definition: `(litre / mmole)^order / second`. */
  function OrderDef(order: nat): UnitDef
  {
    UnitDef(OrderName(order),
            (if order != 0 then [Unit(Litre, order, 1, 0), Unit(Mole, -(order as int), 1, -3)] else []) +
            [Unit(Second, -1, 1, 0)])
  }

  /** `KmUnit`'s definition: `mmole / litre`. */
  const KmDef: UnitDef := UnitDef("mmole_per_litre", [Unit(Litre, -1, 1, 0), Unit(Mole, 1, 1, -3)])

  /** `permeablUnit`'s definition. */
  const PermeabilityDef: UnitDef :=
    UnitDef("litre_per_mmole_per_second", [Unit(Litre, 1, 1, 0), Unit(Mole, -1, 1, -3), Unit(Second, -1, 1, 0)])

  predicate HasId(defs: seq<UnitDef>, id: string)
  {
    exists i :: 0 <= i < |defs| && defs[i].id == id
  }

  /** Appends `d` unless a definition with its id is already present. */
  function Register(defs: seq<UnitDef>, d: UnitDef): (r: seq<UnitDef>)
    ensures HasId(r, d.id)
    ensures HasId(defs, d.id) ==> r == defs
    ensures !HasId(defs, d.id) ==> r == defs + [d]
  {
    if HasId(defs, d.id) then defs
    else
      assert (defs + [d])[|defs|].id == d.id;
      defs + [d]
  }

  /** No two definitions share an id. */
  predicate UniqueIds(defs: seq<UnitDef>)
  {
    forall i, j :: 0 <= i < j < |defs| ==> defs[i].id != defs[j].id
  }

  /** The definition the id refers to: the first one with that id. */
  function Lookup(defs: seq<UnitDef>, id: string): (r: Option<UnitDef>)
    ensures r.Some? <==> HasId(defs, id)
    ensures r.Some? ==> r.value.id == id && r.value in defs
    decreases |defs|
  {
    if defs == [] then None
    else if defs[0].id == id then Some(defs[0])
    else
      var r := Lookup(defs[1..], id);
      assert forall i :: 1 <= i < |defs| ==> defs[i] == defs[1..][i - 1];
      r
  }

  /** The scan `parmUnit`, `KmUnit` and `permeablUnit` run over the unit list. */
  method FindUnit(defs: seq<UnitDef>, id: string) returns (found: bool)
    ensures found == HasId(defs, id)
  {
    found := false;
    var i := 0;
    while i < |defs|
      invariant 0 <= i <= |defs|
      invariant !found ==> forall j :: 0 <= j < i ==> defs[j].id != id
      invariant found ==> HasId(defs, id)
    {
      if defs[i].id == id {
        found := true;
        break;
      }
      i := i + 1;
    }
  }

  lemma {:induction false} LookupAppend(defs: seq<UnitDef>, d: UnitDef, id: string)
    ensures Lookup(defs + [d], id) == if HasId(defs, id) then Lookup(defs, id)
                                     else if d.id == id then Some(d) else None
    decreases |defs|
  {
    if defs != [] {
      assert (defs + [d])[1..] == defs[1..] + [d];
      LookupAppend(defs[1..], d, id);
      assert HasId(defs, id) <==> defs[0].id == id || HasId(defs[1..], id) by {
        if HasId(defs, id) && defs[0].id != id {
          var i :| 0 <= i < |defs| && defs[i].id == id;
          assert defs[1..][i - 1].id == id;
        }
        if HasId(defs[1..], id) {
          var i :| 0 <= i < |defs[1..]| && defs[1..][i].id == id;
          assert defs[i + 1].id == id;
        }
      }
    } else {
      assert [d][0] == d;
    }
  }

  /**
   * Registering by id: afterwards `d.id` refers to the definition it
   * referred to before when there was one, and to `d` otherwise; every
   * other id refers to what it referred to before.
   */
  lemma RegisterLookup(defs: seq<UnitDef>, d: UnitDef, id: string)
    ensures Lookup(Register(defs, d), id) ==
      if id == d.id && !HasId(defs, id) then Some(d) else Lookup(defs, id)
  {
    if !HasId(defs, d.id) {
      LookupAppend(defs, d, id);
    }
  }

  /** Registration keeps every id already defined. */
  lemma RegisterKeepsIds(defs: seq<UnitDef>, d: UnitDef, id: string)
    requires HasId(defs, id)
    ensures HasId(Register(defs, d), id)
  {
    RegisterLookup(defs, d, id);
  }

  /** Registering the same definition twice is the same as registering it once. */
  lemma RegisterIdempotent(defs: seq<UnitDef>, d: UnitDef)
    ensures Register(Register(defs, d), d) == Register(defs, d)
  {
  }

  /** Registration never creates a second definition of an id. */
  lemma RegisterKeepsUnique(defs: seq<UnitDef>, d: UnitDef)
    requires UniqueIds(defs)
    ensures UniqueIds(Register(defs, d))
  {
    var r := Register(defs, d);
    if !HasId(defs, d.id) {
      forall i, j | 0 <= i < j < |r| ensures r[i].id != r[j].id {
        if j == |defs| {
          assert r[i] == defs[i];
        }
      }
    }
  }

  lemma BaseUnitsUnique()
    ensures UniqueIds(BaseUnits)
  {
  }

  lemma OrderNameShape(n: nat)
    requires n > 2
    ensures var s := OrderName(n); var d := NatToString(n);
      |s| == 27 + |d| && s[..16] == "litre_per_mmole_" && s[16..16 + |d|] == d
  {
  }

  /** The shape of the ids of orders above 2. */
  predicate LongName(s: string)
  {
    |s| >= 28 && s[..16] == "litre_per_mmole_"
  }

  lemma OrderNameLong(n: nat)
    ensures LongName(OrderName(n)) <==> n > 2
  {
    if n > 2 {
      OrderNameShape(n);
    } else if n == 2 {
      assert OrderName(n)[..16][0] == 's';
    }
  }

  /** Distinct reaction orders get distinct unit ids. */
  lemma OrderNameInjective(a: nat, b: nat)
    requires OrderName(a) == OrderName(b)
    ensures a == b
  {
    OrderNameLong(a);
    OrderNameLong(b);
    if a > 2 && b > 2 {
      OrderNameShape(a);
      OrderNameShape(b);
      var s := OrderName(a);
      var da, db := NatToString(a), NatToString(b);
      assert |da| == |db|;
      assert da == s[16..16 + |da|] == db;
      NatToStringInjective(a, b);
    }
  }

  /** `permeablUnit` registers exactly the definition `parmUnit(1)` does. */
  lemma PermeabilityIsOrderOne()
    ensures PermeabilityDef == OrderDef(1)
  {
  }

  /**
   * None of the registered definitions clashes with a base definition, and
   * the Michaelis-constant unit is not a rate-constant unit.
   */
  lemma RegisteredIdsFresh(n: nat)
    ensures !HasId(BaseUnits, OrderName(n)) && !HasId(BaseUnits, KmDef.id)
    ensures OrderName(n) != KmDef.id
  {
    var s := OrderName(n);
    if n > 2 {
      OrderNameShape(n);
      assert s[0] == 'l' && s[1] == 'i';
    }
    assert KmDef.id[0] == 'm';
    forall i | 0 <= i < |BaseUnits| ensures BaseUnits[i].id != s {
      if n > 2 {
        assert |BaseUnits[i].id| < 27;
      }
    }
  }
}
