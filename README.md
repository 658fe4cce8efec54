# MOOSE SBML writer core and RollingMatrix, in Dafny

This project models two independent parts of MOOSE (the Multiscale Object-Oriented Simulation Environment).

**The SBML translation rules of `writeSBML.py`.** The writer turns a MOOSE chemical model into an SBML Level 3 Version 1 Core document with the Groups package. The model covers:

- the name sanitisers and the digit guard;
- occurrence counting and rate-law assembly (`Counter`, `getSubprd`, `processRateLaw`);
- the unit-definition registry (`parmUnit`, `KmUnit`, `permeablUnit`);
- the compartment, species, function, channel, reaction and enzyme passes, in the order `mooseWriteSBML` runs them;
- the group records at the end;
- the file-stem extraction.

The MOOSE tree is given as input records: each element has a name, a numeric id, a data index and a class tag, and its neighbour lists are fields of the record. The libsbml model becomes a `State` value made of plain sequences: unit definitions, compartments, species, rules, reactions, groups and the group table. The globals `nameList_` and `spe_constTrue` are fields of that state, threaded from one step to the next.

Each pass's loop body is a function from a state and one element to a new state and a status:

- `Running`: carry on;
- `Stopped`: the `return -2` that ends a pass early;
- `Raised`: a Python exception that ends the export.

The class `Writer.SbmlDocument` holds the same state as mutable fields. Its methods run the loops in place and are proved equal to these functions.

**`RollingMatrix`.** This is a ring buffer of rows from the synapse code. Logical row `r` lives at physical row `(r + currentStartRow) % nrows`. The class `RollingMatrices.RollingMatrix` keeps the C++ fields (`nrows`, `ncolumns`, `currentStartRow`, `rows`) and updates them in place. Every method states the whole new state, so each proof also shows that nothing else changes. `double` is modelled as `real`.

Behaviour modelled as the code has it, where a reader might expect otherwise:

- Every compartment's size is `volume * 1000`. The per-voxel size a `CylMesh` computes is never used.
- `outside` is never set. The test `isinstance(compts, EndoMesh)` applies to the whole list, not to one compartment.
- An `EndoMesh` counts as having a known surround when it is its own surround, because its id is entered before the check.
- The mesh test in `writeFunc` compares the class name against `"CubeMesh"` and `"CyclMesh"`. A function below a `CylMesh` therefore takes the non-mesh branch.
- `writeFunc` carries `foundFunc`, `fName` and `expr` from one iteration to the next. On a mesh, a function without a target writes the previous rule again.
- The placeholder test `v in expr` is a substring test, so `x1` also matches inside `x10`.
- `writeSpecies` returning `-2` is truthy, so `writeFunc` runs either way.
- A reaction whose compartment lookup fails ends the pass. By then a reactant-only reaction has already been created, and it stays in the document.
- Compartment references in formulas and in species records are the raw `name_id_index_`, not the escaped id.
- A group's id is built from its raw name, digit-guarded but not escaped.
- Explicit-enzyme stage 2 succeeds even with an empty product list.
- The group member that complex formation files is the first complex's clean id, not the reaction's id.
- Every entry of the group table is emitted as a group, including entries with no members.
- An enzyme-complex pool without `info` makes the species pass raise. The writer reads the enzyme's `info` (which fails when the enzyme has none) and passes its numeric `x` to `moose.element`, so the export produces no file.

Three of these points differ from what a reader of `writeSBML.py` might expect:

- Not only groups with members are emitted: every group in the table is.
- Complex formation files the complex as the group member, not the parent enzyme.
- A reaction whose compartment cannot be resolved is not simply dropped while the pass carries on: the pass stops at it.

## Model

| member | source | states |
|---|---|---|
| Strings.NatToString | moose-core/python/moose/SBML/writeSBML.py:1108-1113 | Python `str(n)` of the index numbers: nonempty and all digits |
| Strings.NatToStringInjective | moose-core/python/moose/SBML/writeSBML.py:1108-1113 | different numbers print differently |
| Strings.ReplaceAll | moose-core/python/moose/SBML/writeSBML.py:1083-1090 | `str.replace`: each output character comes from the input or from the replacement; a nonempty input stays nonempty when the replacement is nonempty |
| Strings.ReplaceAllRemovesChar | moose-core/python/moose/SBML/writeSBML.py:1083-1090 | replacing a one-character pattern with text that lacks it leaves no copy of that character |
| Strings.ReplaceAllCopies | moose-core/python/moose/SBML/writeSBML.py:1083-1090 | characters before the first possible match are copied unchanged |
| Strings.ReplaceAllAbsent | moose-core/python/moose/SBML/writeSBML.py:1083-1090 | text without an occurrence of the pattern comes back unchanged |
| Strings.ReplaceAllAppend | moose-core/python/moose/SBML/writeSBML.py:1083-1090 | a tail that shares no character with the pattern passes through untouched |
| Strings.IsSubstringSound | moose-core/python/moose/SBML/writeSBML.py:1014-1017 | the `v in expr` test holds only when `v` occurs at some position of `expr` |
| Strings.TrimLeft | moose-core/python/moose/SBML/writeSBML.py:1043 | drops exactly the leading run of the given characters |
| Strings.TrimRight | moose-core/python/moose/SBML/writeSBML.py:1043 | drops exactly the trailing run of the given characters |
| Sanitize.ApplyTable | moose-core/python/moose/SBML/writeSBML.py:1083-1090 | running a replacement table in order keeps a nonempty text nonempty |
| Sanitize.ApplyFromNonEmpty | moose-core/python/moose/SBML/writeSBML.py:1083-1090 | every suffix of the table keeps a nonempty text nonempty |
| Sanitize.ApplyFromKeepsOut | moose-core/python/moose/SBML/writeSBML.py:1083-1090 | a character absent from the text and from every later replacement stays absent |
| Sanitize.UnsafeRemoved | moose-core/python/moose/SBML/writeSBML.py:1083-1090 | a character the table replaces outright is absent from the result; no later replacement brings it back |
| Sanitize.ApplyFromSuffix | moose-core/python/moose/SBML/writeSBML.py:1083-1090 | a suffix no pattern touches survives the table unchanged |
| Sanitize.IdTableIgnoresIndexChars | moose-core/python/moose/SBML/writeSBML.py:1083-1090 | no pattern of the id table contains a digit or `_` |
| Sanitize.IdTableSuffix | moose-core/python/moose/SBML/writeSBML.py:1083-1090 | a trailing `_<id>_<index>_` suffix survives `convertSpecialChar` |
| Sanitize.ApplyFromPrefix | moose-core/python/moose/SBML/writeSBML.py:1083-1090 | a leading character no pattern contains stays in front |
| Sanitize.IdTablePrefix | moose-core/python/moose/SBML/writeSBML.py:1083-1090 | a leading digit or `_` stays in front |
| Sanitize.IdTableKeepsHead | moose-core/python/moose/SBML/writeSBML.py:1083-1090 | the first character survives escaping when it is a digit or `_` |
| Sanitize.AmpKeep | moose-core/python/moose/SBML/writeSBML.py:1083-1090 | a replacement that cannot touch `&#176` keeps `&` only inside that entity |
| Sanitize.AmpKeepFrom | moose-core/python/moose/SBML/writeSBML.py:1083-1090 | a run of such replacements keeps the property |
| Sanitize.AmpAfterTable | moose-core/python/moose/SBML/writeSBML.py:1083-1090 | a table that first replaces `&` leaves `&` only inside `&#176` |
| Sanitize.IdTablePatterns | moose-core/python/moose/SBML/writeSBML.py:1083-1090 | after the `&` entry, no id-table entry can create a stray `&` |
| Sanitize.NotesTablePatterns | moose-core/python/moose/SBML/writeSBML.py:1038-1044 | after the `&` entry, no notes-table entry can create a stray `&` |
| Sanitize.IdTableRemovesLt | moose-core/python/moose/SBML/writeSBML.py:1083-1090 | `convertSpecialChar` output has no `<` |
| Sanitize.IdTableRemovesGt | moose-core/python/moose/SBML/writeSBML.py:1083-1090 | no `>` |
| Sanitize.IdTableRemovesMinus | moose-core/python/moose/SBML/writeSBML.py:1083-1090 | no `-` |
| Sanitize.IdTableRemovesPrime | moose-core/python/moose/SBML/writeSBML.py:1083-1090 | no `'` |
| Sanitize.IdTableRemovesPlus | moose-core/python/moose/SBML/writeSBML.py:1083-1090 | no `+` |
| Sanitize.IdTableRemovesStar | moose-core/python/moose/SBML/writeSBML.py:1083-1090 | no `*` |
| Sanitize.IdTableRemovesSlash | moose-core/python/moose/SBML/writeSBML.py:1083-1090 | no `/` |
| Sanitize.IdTableRemovesBo | moose-core/python/moose/SBML/writeSBML.py:1083-1090 | no `(` |
| Sanitize.IdTableRemovesBc | moose-core/python/moose/SBML/writeSBML.py:1083-1090 | no `)` |
| Sanitize.IdTableRemovesSbo | moose-core/python/moose/SBML/writeSBML.py:1083-1090 | no `[` |
| Sanitize.IdTableRemovesSbc | moose-core/python/moose/SBML/writeSBML.py:1083-1090 | no `]` |
| Sanitize.IdTableRemovesDot | moose-core/python/moose/SBML/writeSBML.py:1083-1090 | no `.` |
| Sanitize.IdTableRemovesSpace | moose-core/python/moose/SBML/writeSBML.py:1083-1090 | no space |
| Sanitize.NameTableRemovesPrime | moose-core/python/moose/SBML/writeSBML.py:1070-1081 | `convertSpecialCharshot` output has no `'` |
| Sanitize.NameTableRemovesBackslash | moose-core/python/moose/SBML/writeSBML.py:1070-1081 | no backslash |
| Sanitize.NameTableRemovesSlash | moose-core/python/moose/SBML/writeSBML.py:1070-1081 | no `/` |
| Sanitize.NameTableRemovesSbo | moose-core/python/moose/SBML/writeSBML.py:1070-1081 | no `[` |
| Sanitize.NameTableRemovesSbc | moose-core/python/moose/SBML/writeSBML.py:1070-1081 | no `]` |
| Sanitize.NameTableRemovesSpace | moose-core/python/moose/SBML/writeSBML.py:1070-1081 | no space |
| Sanitize.NotesTableRemovesLt | moose-core/python/moose/SBML/writeSBML.py:1038-1044 | the notes table leaves no `<` |
| Sanitize.NotesTableRemovesGt | moose-core/python/moose/SBML/writeSBML.py:1038-1044 | the notes table leaves no `>` |
| Sanitize.IdTableLegal | moose-core/python/moose/SBML/writeSBML.py:1083-1090 | the id table's output has none of the thirteen replaced characters, and `&` appears only inside `&#176` |
| Sanitize.NameTableLegal | moose-core/python/moose/SBML/writeSBML.py:1070-1081 | the name table's output has no quote, slash, backslash, square bracket or space |
| Sanitize.ConvertSpecialChar | moose-core/python/moose/SBML/writeSBML.py:1083-1090 | the replacement loop computes the id table, and its result is legal and nonempty for nonempty input |
| Sanitize.ConvertSpecialCharShort | moose-core/python/moose/SBML/writeSBML.py:1070-1081 | the replacement loop computes the name table, and its result is free of the name table's characters |
| Sanitize.NotesTableLegal | moose-core/python/moose/SBML/writeSBML.py:1038-1042 | the notes table leaves no `<` or `>`, and `&` only inside `&#176` |
| Sanitize.StripKeepsLegal | moose-core/python/moose/SBML/writeSBML.py:1043 | stripping whitespace keeps both guarantees |
| Sanitize.CleanNotesLegal | moose-core/python/moose/SBML/writeSBML.py:1038-1044 | cleaned notes are escaped and neither begin nor end with whitespace |
| Sanitize.ConvertNotesSpecialChar | moose-core/python/moose/SBML/writeSBML.py:1038-1044 | the loop and strip compute the cleaned notes, with the same guarantees |
| Sanitize.IdBeginWith | moose-core/python/moose/SBML/writeSBML.py:1059-1063 | the result is the name or `_` + name; it is the name exactly when the name does not start with a digit; the result never starts with a digit |
| MooseTree.NearestContainer | moose-core/python/moose/SBML/writeSBML.py:1046-1057 | the first ancestor that is a `Neutral` or a mesh, found exactly when one exists |
| MooseTree.IndexSuffix | moose-core/python/moose/SBML/writeSBML.py:1108-1113 | `_<id>_<index>_` starts with `_` and has only digits and `_` |
| MooseTree.IndexStem | moose-core/python/moose/SBML/writeSBML.py:1014-1016 | the suffix without its last `_`, which `writeFunc` appends separately |
| MooseTree.CleanIdLegal | moose-core/python/moose/SBML/writeSBML.py:1108-1113 | every clean id (escape, then digit guard) satisfies the id legality predicate |
| MooseTree.CleanIdNoStar | moose-core/python/moose/SBML/writeSBML.py:813-815 | a clean id has no `*`, the separator of rate-expression factors |
| MooseTree.CleanIdSuffix | moose-core/python/moose/SBML/writeSBML.py:1108-1113 | a clean id ends with the element's index suffix |
| MooseTree.CleanIdWhole | moose-core/python/moose/SBML/writeSBML.py:813-815 | escaping `name_id_index_` as a whole gives the same id as the species pass writes |
| MooseTree.CleanIdInjective | moose-core/python/moose/SBML/writeSBML.py:1108-1113 | two elements with the same clean id have the same numeric id and data index whatever their names (so `a-b` and `a_minus_b` cannot collide unless they are the same object), and with the same name they are the same element |
| MooseTree.SuffixFromRight | moose-core/python/moose/SBML/writeSBML.py:1108-1113 | two ids that end in index suffixes, whatever precedes them, end in the suffix of the same id and data index |
| MooseTree.DigitRunSplitRight | moose-core/python/moose/SBML/writeSBML.py:1108-1113 | read from the right, a run of digits after the last `_` is parsed back uniquely, as is what precedes it |
| MooseTree.RawIdMatchesCleanId | moose-core/python/moose/SBML/writeSBML.py:1102-1138 | the raw compartment reference equals the compartment's id exactly when escaping and the digit guard leave its name alone |
| MooseTree.RawIdIfUnchanged | moose-core/python/moose/SBML/writeSBML.py:1102-1138 | the if direction of that equivalence |
| MooseTree.RawIdOnlyIfUnchanged | moose-core/python/moose/SBML/writeSBML.py:1102-1138 | the only-if direction |
| RateLaw.Distinct | moose-core/python/moose/SBML/writeSBML.py:761-762 | the dict's keys: the same elements as the list, without repeats |
| RateLaw.DistinctHead | moose-core/python/moose/SBML/writeSBML.py:761-762 | the first key is the list's first element |
| RateLaw.FirstIndex | moose-core/python/moose/SBML/writeSBML.py:761-762 | the position of the first occurrence |
| RateLaw.DistinctOrder | moose-core/python/moose/SBML/writeSBML.py:761-762 | keys appear in the order of their first occurrences |
| RateLaw.Counter | moose-core/python/moose/SBML/writeSBML.py:761-762 | one pair per distinct element, in first-occurrence order, carrying its occurrence count (positive) |
| RateLaw.CounterTotal | moose-core/python/moose/SBML/writeSBML.py:761-762 | the counts add up to the list's length |
| RateLaw.DistinctSumMult | moose-core/python/moose/SBML/writeSBML.py:761-762 | the multiplicities of the distinct elements add up to the list's length |
| RateLaw.Term | moose-core/python/moose/SBML/writeSBML.py:833-843 | one factor: the id, followed by `^n` exactly when the count is not 1 |
| RateLaw.JoinStar | moose-core/python/moose/SBML/writeSBML.py:833-843 | factors joined by `*`; one factor stands alone |
| RateLaw.SplitStar | moose-core/python/moose/SBML/writeSBML.py:833-843 | the inverse: splitting at `*` gives at least one part |
| RateLaw.JoinSplitRoundTrip | moose-core/python/moose/SBML/writeSBML.py:833-843 | splitting a join of `*`-free factors gives every factor back |
| RateLaw.TermHasNoStar | moose-core/python/moose/SBML/writeSBML.py:833-843 | a factor of a `*`-free id has no `*` |
| RateLaw.NamedNoStar | moose-core/python/moose/SBML/writeSBML.py:813-815 | no participant's clean id has a `*` |
| RateLaw.RateExprFactors | moose-core/python/moose/SBML/writeSBML.py:799-844 | the rate expression splits into exactly one factor per distinct participant, in first-occurrence order: its clean id, with `^count` when the count is not 1 |
| RateLaw.ProcessRateLaw | moose-core/python/moose/SBML/writeSBML.py:799-844 | the loop builds the rate expression, clears `nameList_` and refills it with the clean ids only when `mobjEnz` is set, and appends one species reference per pair |
| RateLaw.JoinStep | moose-core/python/moose/SBML/writeSBML.py:835-843 | the loop's step: the first factor alone, later ones after `*` |
| RateLaw.GetSubprd | moose-core/python/moose/SBML/writeSBML.py:764-796 | the branch on role and emptiness computes the specification's count, expression, references and name list |
| RateLaw.GetSubprdCount | moose-core/python/moose/SBML/writeSBML.py:764-796 | the count is the full list length, repeats included; an empty substrate list gives `(0, " ")`; an empty product or modifier list gives nothing; an empty list leaves the name list and the references alone |
| RateLaw.GetSubprdFound | moose-core/python/moose/SBML/writeSBML.py:764-796 | a nonempty list gives its length and rate expression; with `mobjEnz` the new name list is headed by the first element's clean id, and without it the list is cleared |
| RateLaw.GetSubprdRefs | moose-core/python/moose/SBML/writeSBML.py:819-832 | one reference per distinct participant, in order; substrates and products carry the occurrence count and are constant exactly when the id is in `spe_constTrue`; modifiers carry neither |
| RateLaw.ListOfName | moose-core/python/moose/SBML/writeSBML.py:847-856 | with `mobjEnz`, one name per distinct element |
| Units.Register | moose-core/python/moose/SBML/writeSBML.py:731-759 | append only when the id is absent; afterwards the id is defined |
| Units.Lookup | moose-core/python/moose/SBML/writeSBML.py:731-737 | the first definition with that id, found exactly when one exists |
| Units.FindUnit | moose-core/python/moose/SBML/writeSBML.py:731-737 | the scan over the unit list reports exactly whether the id is defined |
| Units.LookupAppend | moose-core/python/moose/SBML/writeSBML.py:731-759 | appending leaves every earlier lookup unchanged |
| Units.RegisterLookup | moose-core/python/moose/SBML/writeSBML.py:731-759 | after registration the id refers to its old definition if it had one, and to the new one otherwise; other ids are unaffected |
| Units.RegisterKeepsIds | moose-core/python/moose/SBML/writeSBML.py:731-759 | registration keeps every defined id |
| Units.RegisterIdempotent | moose-core/python/moose/SBML/writeSBML.py:731-759 | registering twice is the same as registering once |
| Units.RegisterKeepsUnique | moose-core/python/moose/SBML/writeSBML.py:731-759 | registration never duplicates an id |
| Units.BaseUnitsUnique | moose-core/python/moose/SBML/writeSBML.py:1401-1441 | the base units `writeUnits` creates have distinct ids |
| Units.OrderNameShape | moose-core/python/moose/SBML/writeSBML.py:720-728 | for an order above 2 the name is `litre_per_mmole_<order>_per_second` |
| Units.OrderNameLong | moose-core/python/moose/SBML/writeSBML.py:720-728 | only orders above 2 get the long form |
| Units.OrderNameInjective | moose-core/python/moose/SBML/writeSBML.py:720-728 | different orders get different unit ids |
| Units.PermeabilityIsOrderOne | moose-core/python/moose/SBML/writeSBML.py:663-693 | `permeablUnit` registers exactly the definition that `parmUnit(1)` registers |
| Units.RegisteredIdsFresh | moose-core/python/moose/SBML/writeSBML.py:695-759 | no rate-constant or Km unit clashes with a base definition, and Km's unit is no rate-constant unit |
| Sbml.ReactionIds | moose-core/python/moose/SBML/writeSBML.py:859-989 | the ids of the reactions, in order |
| Sbml.KeyIndex | moose-core/python/moose/SBML/writeSBML.py:1177-1186 | `g in groupInfo`: the first position of the group, or the table's length when absent |
| Sbml.Keys | moose-core/python/moose/SBML/writeSBML.py:186-188 | the groups of the table, in insertion order |
| Sbml.AddMemberMembers | moose-core/python/moose/SBML/writeSBML.py:1177-1186 | filing appends the id to that group only, and the group is in the table afterwards |
| Sbml.AddMemberKeys | moose-core/python/moose/SBML/writeSBML.py:1177-1186 | a known group keeps its place; a new group goes last |
| Sbml.PreregisterMembers | moose-core/python/moose/SBML/writeSBML.py:1306-1312 | pre-registering keeps every member list and adds the group when it is new |
| Sbml.UpdatesKeepUniqueKeys | moose-core/python/moose/SBML/writeSBML.py:1306-1312 | both updates keep each group in the table once |
| Sbml.HasKeyInKeys | moose-core/python/moose/SBML/writeSBML.py:186-188 | a group is in the table exactly when it is one of its keys |
| Sbml.AddMemberExtends | moose-core/python/moose/SBML/writeSBML.py:1177-1186 | filing keeps every group already present in its place |
| Sbml.FilingExtends | moose-core/python/moose/SBML/writeSBML.py:316-348 | a step that may register a unit and file an id keeps unit ids unique and groups in place |
| Sbml.FilingExtends2 | moose-core/python/moose/SBML/writeSBML.py:612-654 | the same for a step that registers two units in turn |
| Passes.PassStep | moose-core/python/moose/SBML/writeSBML.py:859-989 | a pass handles the first element, then the rest unless that step stopped |
| Passes.PassAppends | moose-core/python/moose/SBML/writeSBML.py:859-989 | when no step stops, the pass appends each element's output in order |
| Passes.PassRaises | moose-core/python/moose/SBML/writeSBML.py:1095-1123 | a pass whose earlier steps run on and whose next step raises, raises |
| Passes.PassKeeps | moose-core/python/moose/SBML/writeSBML.py:859-989 | an invariant every step keeps holds after the pass |
| Passes.PassExtends | moose-core/python/moose/SBML/writeSBML.py:859-989 | a pass whose steps all extend the state extends it |
| Compartments.IdsStep | moose-core/python/moose/SBML/writeSBML.py:1236-1247 | the surround check of a compartment fails exactly when its surround is neither itself nor earlier in the list |
| Compartments.ComptsFromError | moose-core/python/moose/SBML/writeSBML.py:1236-1247 | the pass ends with the `EndoMesh` error exactly when some compartment is orphaned from that point on |
| Compartments.ComptsFromWritten | moose-core/python/moose/SBML/writeSBML.py:1224-1318 | with no orphan, the pass writes every compartment |
| Compartments.WriteComptResult | moose-core/python/moose/SBML/writeSBML.py:1224-1318 | an orphaned `EndoMesh` gives False with "Outer compartment need to be specified for EndoMesh "; otherwise the result is True exactly when the list is nonempty, with no message |
| Compartments.ExpectedRecordFields | moose-core/python/moose/SBML/writeSBML.py:1284-1303 | record id is the clean id; constant; size `volume*1000`; no `outside`; dimensions 3, 2 and 1 map to volume, area and metre; the surround's id for an `EndoMesh`; lengths for a `CylMesh` |
| Compartments.WriteComptRecords | moose-core/python/moose/SBML/writeSBML.py:1224-1318 | with no orphan, one record per compartment is appended, in order |
| Compartments.WriteComptGroups | moose-core/python/moose/SBML/writeSBML.py:1306-1312 | with no orphan, the group table holds exactly the `Neutral`s below the compartments, each empty |
| Compartments.WriteComptKeeps | moose-core/python/moose/SBML/writeSBML.py:1224-1318 | no unit touched; each group entered once |
| Pools.ZeroInputEntriesIn | moose-core/python/moose/SBML/writeSBML.py:1149-1160 | the id is added for a `Function` child without inputs, and nothing else is added |
| Pools.SpeciesFlags | moose-core/python/moose/SBML/writeSBML.py:1142-1165 | boundaryCondition exactly for buffered pools; ordinary pools are not constant; a buffered pool without `func` is constant; with `func`, the last `Function` child decides |
| Pools.ConstTrueEntries | moose-core/python/moose/SBML/writeSBML.py:1142-1165 | the id goes into `spe_constTrue` exactly when the pool is buffered and has no `func` or a `Function` child without inputs |
| Pools.SpeciesRecordFields | moose-core/python/moose/SBML/writeSBML.py:1108-1174 | clean id, escaped name, raw compartment id, initial concentration, `substance` units, and zero diffusion and motor constants without an annotator |
| Pools.XferSkipped | moose-core/python/moose/SBML/writeSBML.py:1097 | `_xfer_` pools are skipped with nothing written |
| Pools.SpeciesStepEffect | moose-core/python/moose/SBML/writeSBML.py:1097-1221 | any other pool stops the pass exactly when its compartment is missing; it raises exactly when it has a compartment and is an enzyme complex (`cplx` in its id, parent an enzyme) without `info`, since copying the enzyme's coordinates at 1118-1122 fails; otherwise it appends its record and constant entries and nothing else |
| Pools.SpeciesGroup | moose-core/python/moose/SBML/writeSBML.py:1177-1186 | a written pool is filed after the members its group already has |
| Pools.WriteSpeciesAll | moose-core/python/moose/SBML/writeSBML.py:1093-1221 | when every pool is a transfer pool, or has a compartment and is not an enzyme complex without `info`, the whole list is written, in order |
| Pools.WriteSpeciesRaises | moose-core/python/moose/SBML/writeSBML.py:1116-1123 | once the pass reaches an enzyme complex without `info` that has a compartment, the pass raises |
| Pools.SpeciesStepExtends | moose-core/python/moose/SBML/writeSBML.py:1093-1221 | a species step keeps unit ids unique and groups in place |
| Functions.Placeholder | moose-core/python/moose/SBML/writeSBML.py:1013 | `"x" + str(i)` starts with `x` and has a digit after it |
| Functions.InputIdIsCleanId | moose-core/python/moose/SBML/writeSBML.py:1015-1016 | the substituted id is the input's clean id, the one its species was written with |
| Functions.InputIdOf | moose-core/python/moose/SBML/writeSBML.py:1015-1016 | the id computed as the loop does is the clean id |
| Functions.InputIds | moose-core/python/moose/SBML/writeSBML.py:1011-1017 | one clean id per input, in order |
| Functions.SubstituteUnguarded | moose-core/python/moose/SBML/writeSBML.py:1012-1017 | the `v in expr` guard changes nothing |
| Functions.SubstituteNoPlaceholder | moose-core/python/moose/SBML/writeSBML.py:1012-1017 | an expression without `x` is written unchanged |
| Functions.SubstituteStep | moose-core/python/moose/SBML/writeSBML.py:1012-1017 | one input: replace its placeholder when present |
| Functions.SubstituteInputs | moose-core/python/moose/SBML/writeSBML.py:1012-1017 | the substitution loop computes the specification's substitution |
| Functions.FuncStepFound | moose-core/python/moose/SBML/writeSBML.py:992-1036 | after a function's iteration a rule is pending exactly when one was pending before, or the function is not on a mesh, or it has a target and a nonempty expression |
| Functions.ParentRule | moose-core/python/moose/SBML/writeSBML.py:1019-1036 | a function not on a mesh sets its parent's clean id to the substituted expression |
| Functions.TargetRule | moose-core/python/moose/SBML/writeSBML.py:1000-1017 | on a mesh, a function with a target sets the target's clean id |
| Functions.UntargetedRepeats | moose-core/python/moose/SBML/writeSBML.py:1000-1036 | on a mesh, a function without a target rewrites the previous rule |
| Functions.CylMeshRule | moose-core/python/moose/SBML/writeSBML.py:1000 | a function below a `CylMesh` gets the non-mesh branch |
| Functions.FuncRulesCount | moose-core/python/moose/SBML/writeSBML.py:992-1036 | at most one rule per function, and exactly one once any rule is pending |
| Functions.FuncRulesOffMesh | moose-core/python/moose/SBML/writeSBML.py:1019-1036 | with no function on a mesh, each function writes its own parent rule, in order |
| Functions.WriteFuncOnlyRules | moose-core/python/moose/SBML/writeSBML.py:992-1036 | the pass only appends rules, at most one per function |
| Channels.ChanSkipped | moose-core/python/moose/SBML/writeSBML.py:290-292 | a channel missing `in` or `out` is skipped |
| Channels.ChanStepStatus | moose-core/python/moose/SBML/writeSBML.py:293-333 | a channel with both sides stops the pass exactly when its compartment is missing, raises when it has no `setNumChan`, and changes nothing unless written |
| Channels.ChanWritten | moose-core/python/moose/SBML/writeSBML.py:307-348 | one reversible reaction with the channel's id and name, the permeability formula, the `Permeability` parameter in `litre_per_mmole_per_second`, and that unit defined |
| Channels.ChanParticipants | moose-core/python/moose/SBML/writeSBML.py:329-333 | one reactant, product or modifier reference per distinct `in`, `out` or `setNumChan` neighbour |
| Channels.ChanGroup | moose-core/python/moose/SBML/writeSBML.py:316-321 | a written channel is filed under its group |
| Channels.WriteChannelAll | moose-core/python/moose/SBML/writeSBML.py:254-348 | when every channel is writable, one reaction per channel with both sides, in order |
| Channels.ChanStepExtends | moose-core/python/moose/SBML/writeSBML.py:254-348 | a channel step keeps unit ids unique and groups in place |
| Reactions.ParamId | moose-core/python/moose/SBML/writeSBML.py:951-975 | `<id>_Kf`/`<id>_Kb` pass the digit guard unchanged |
| Reactions.SidesFound | moose-core/python/moose/SBML/writeSBML.py:933-979 | both lookups of a two-sided reaction succeed with the sides' lengths and expressions |
| Reactions.ReacSkipped | moose-core/python/moose/SBML/writeSBML.py:861-863 | a reaction missing substrates or products is skipped |
| Reactions.ReacStopped | moose-core/python/moose/SBML/writeSBML.py:933-961 | a two-sided reaction never raises; it stops the pass exactly when its compartment is missing, leaving the reactant-only reaction |
| Reactions.ReacHeadFields | moose-core/python/moose/SBML/writeSBML.py:869-945 | the reaction as created before its compartment is known: id, name, reactants, and nothing else |
| Reactions.ReacWritten | moose-core/python/moose/SBML/writeSBML.py:859-989 | a two-sided reaction with a compartment is appended, its units registered, and `nameList_` cleared |
| Reactions.ReacRecordFields | moose-core/python/moose/SBML/writeSBML.py:882-986 | reversible exactly when Kb is not 0; the formula is `compt * id_Kf * subs`, minus `compt * id_Kb * prds` only when Kb is not 0; Kf and Kb units follow the side sizes |
| Reactions.ReacUnitsDefined | moose-core/python/moose/SBML/writeSBML.py:951-975 | the Kf unit, and the Kb unit when Kb is not 0, are defined; nothing is lost |
| Reactions.ReacParticipants | moose-core/python/moose/SBML/writeSBML.py:933-979 | one reference per distinct substrate and product, with its count |
| Reactions.ReacGroup | moose-core/python/moose/SBML/writeSBML.py:895-905 | a two-sided reaction is filed under its group even when the pass then stops |
| Reactions.WriteReacAll | moose-core/python/moose/SBML/writeSBML.py:859-989 | when every reaction is writable, one reaction per two-sided reaction, in order |
| Reactions.ReacStepExtends | moose-core/python/moose/SBML/writeSBML.py:859-989 | a reaction step keeps unit ids unique and groups in place |
| Enzymes.KmPower | moose-core/python/moose/SBML/writeSBML.py:639-646 | `^n` after Km only for more than one substrate |
| Enzymes.OtherSkipped | moose-core/python/moose/SBML/writeSBML.py:349-654 | enzymes of another class are skipped |
| Enzymes.ExplicitStatus | moose-core/python/moose/SBML/writeSBML.py:396-586 | an explicit enzyme stops the pass exactly when its compartment is missing and never raises; complex formation found implies product formation found |
| Enzymes.ComplexStageEffect | moose-core/python/moose/SBML/writeSBML.py:398-499 | stage 1 appends its reaction exactly when its checks pass, and files the first complex's clean id under the group |
| Enzymes.ComplexSubsFound | moose-core/python/moose/SBML/writeSBML.py:476-478 | the substrate side is the parent plus the substrates |
| Enzymes.ComplexPrdsFound | moose-core/python/moose/SBML/writeSBML.py:480-481 | the product side is the complexes |
| Enzymes.ComplexRecordFields | moose-core/python/moose/SBML/writeSBML.py:463-489 | reversible; `compt * ( k1 * subs -  k2  * cplx )`; k1 and k2 in the units of their side sizes |
| Enzymes.ComplexRefs | moose-core/python/moose/SBML/writeSBML.py:480-481 | one product reference per distinct complex |
| Enzymes.ProductStageEffect | moose-core/python/moose/SBML/writeSBML.py:502-586 | stage 2 appends its reaction exactly when its own checks pass, independently of stage 1, and files nothing |
| Enzymes.ProductSubsFound | moose-core/python/moose/SBML/writeSBML.py:565 | the substrate side is the complexes |
| Enzymes.ProductPrdsFound | moose-core/python/moose/SBML/writeSBML.py:566-568 | the product side is the products followed by the parent |
| Enzymes.ProductRecordFields | moose-core/python/moose/SBML/writeSBML.py:565-577 | irreversible; `compt * k3*cplx`; k3 in the units of the complex count |
| Enzymes.MMStatus | moose-core/python/moose/SBML/writeSBML.py:587-636 | an MM enzyme missing a side is skipped; otherwise it stops on a missing compartment and raises without `enzDest` |
| Enzymes.MMLookups | moose-core/python/moose/SBML/writeSBML.py:630-636 | all three lookups succeed and clear `nameList_` |
| Enzymes.MMStageWritten | moose-core/python/moose/SBML/writeSBML.py:587-654 | the MM stage appends its reaction and registers Km's and kcat's units |
| Enzymes.MMWritten | moose-core/python/moose/SBML/writeSBML.py:587-654 | the whole step for a writable MM enzyme |
| Enzymes.MMUnitsDefined | moose-core/python/moose/SBML/writeSBML.py:651-654 | `mmole_per_litre` and `per_second` are defined afterwards |
| Enzymes.MMGroup | moose-core/python/moose/SBML/writeSBML.py:612-617 | the MM enzyme is filed under its group by its clean id |
| Enzymes.MMRecordFields | moose-core/python/moose/SBML/writeSBML.py:639-654 | `compt * ( kcat * S * E/(Km[^n] + S))`; Km in `mmole_per_litre`, kcat in `per_second` |
| Enzymes.ComplexStageIds | moose-core/python/moose/SBML/writeSBML.py:398-499 | stage 1 adds the `Complex_formation_` id exactly when found |
| Enzymes.ProductStageIds | moose-core/python/moose/SBML/writeSBML.py:502-586 | stage 2 adds the `Product_formation_` id exactly when found |
| Enzymes.WriteEnzAll | moose-core/python/moose/SBML/writeSBML.py:349-654 | when every enzyme is writable, each enzyme's reactions are added in order |
| Enzymes.EnzStepExtends | moose-core/python/moose/SBML/writeSBML.py:349-654 | an enzyme step keeps unit ids unique and groups in place |
| Groups.GroupIdShape | moose-core/python/moose/SBML/writeSBML.py:189-191 | a group id never starts with a digit, ends with the index suffix, and is the raw id exactly when the name has no leading digit |
| Groups.GroupAnnotationFields | moose-core/python/moose/SBML/writeSBML.py:202-226 | compartment always; parent group exactly when the parent is a `Neutral`, the compartment otherwise; layout only with nonzero size; notes only when nonempty |
| Groups.WriteGroupsEntries | moose-core/python/moose/SBML/writeSBML.py:186-231 | one `collection` group per table entry, in order, with that entry's members; nothing else changes |
| Groups.GroupEmitted | moose-core/python/moose/SBML/writeSBML.py:186-231 | every group in the table is emitted with its members, including an empty group |
| Export.BaseName | moose-core/python/moose/SBML/writeSBML.py:96 | the path's last component, with no `/` |
| Export.FileStem | moose-core/python/moose/SBML/writeSBML.py:98-101 | the name up to its first `.`, or all of it |
| Export.FileStemFacts | moose-core/python/moose/SBML/writeSBML.py:98-101 | a name without `.` is its own stem; the stem is idempotent |
| Export.Finish | moose-core/python/moose/SBML/writeSBML.py:233-246 | after the passes, a document is written exactly when no pass raised and validation passes, to `<dir>/<stem>.xml` |
| Export.ExportFailures | moose-core/python/moose/SBML/writeSBML.py:88-252 | libsbml missing, then path missing; no compartment exactly when the list is empty or an `EndoMesh` is orphaned, with the matching message |
| Export.ExportFile | moose-core/python/moose/SBML/writeSBML.py:97-246 | a written document is named after the stem, was validated, and goes to `<dir>/<stem>.xml` |
| Export.RunPassesExtends | moose-core/python/moose/SBML/writeSBML.py:178-191 | the five passes keep unit ids unique and groups in place |
| Export.ExportUnitsAndCompartments | moose-core/python/moose/SBML/writeSBML.py:169-191 | a written document has distinct unit ids, the base units first, and one compartment record per compartment, in order |
| Export.ExportGroups | moose-core/python/moose/SBML/writeSBML.py:178-231 | every group below a compartment appears in the written document, even with no members |
| Export.ExportCompletes | moose-core/python/moose/SBML/writeSBML.py:178-252 | when every object is writable (which excludes an enzyme complex without `info`), the export writes the document or reports it invalid |
| Export.ExportCplxFails | moose-core/python/moose/SBML/writeSBML.py:172-175 | an enzyme complex without `info` reached by the species pass makes the export fail with no document |
| Writer.SbmlDocument.constructor | moose-core/python/moose/SBML/writeSBML.py:104-108 | a document holding the given state |
| Writer.SbmlDocument.FindGroup | moose-core/python/moose/SBML/writeSBML.py:1177-1186 | the group's table position, below the length exactly when present |
| Writer.SbmlDocument.FileMember | moose-core/python/moose/SBML/writeSBML.py:1177-1186 | append to a known group or create it with one member; only the table changes |
| Writer.SbmlDocument.PreregisterGroup | moose-core/python/moose/SBML/writeSBML.py:1306-1312 | enter an empty group only when absent; only the table changes |
| Writer.SbmlDocument.RegisterUnit | moose-core/python/moose/SBML/writeSBML.py:731-759 | create the unit unless its id exists; only the unit list changes |
| Writer.SbmlDocument.ParmUnit | moose-core/python/moose/SBML/writeSBML.py:719-759 | returns the order's unit id, defined afterwards; only the unit list changes |
| Writer.SbmlDocument.KmUnit | moose-core/python/moose/SBML/writeSBML.py:695-717 | returns `mmole_per_litre`, defined afterwards |
| Writer.SbmlDocument.PermeablUnit | moose-core/python/moose/SBML/writeSBML.py:663-693 | returns `litre_per_mmole_per_second`, defined afterwards |
| Writer.SbmlDocument.WriteCompartments | moose-core/python/moose/SBML/writeSBML.py:1224-1318 | the in-place loop leaves the state and result of the compartment specification |
| Writer.SbmlDocument.AddZeroInputEntries | moose-core/python/moose/SBML/writeSBML.py:1149-1160 | the `Function`-children loop adds the id per child without inputs |
| Writer.SbmlDocument.WriteSpeciesOne | moose-core/python/moose/SBML/writeSBML.py:1097-1221 | the loop body equals one species step |
| Writer.SbmlDocument.WriteSpecies | moose-core/python/moose/SBML/writeSBML.py:1093-1221 | the loop equals the species pass, stopping at the first `-2` |
| Writer.SbmlDocument.WriteFunctions | moose-core/python/moose/SBML/writeSBML.py:992-1036 | the loop with its carried variables equals the function pass |
| Writer.SbmlDocument.RunPass | moose-core/python/moose/SBML/writeSBML.py:859-989 | a loop over elements equals the pass of its step |
| Writer.SbmlDocument.WriteGroups | moose-core/python/moose/SBML/writeSBML.py:186-231 | the group loop equals the group assembly |
| Writer.FuncIteration | moose-core/python/moose/SBML/writeSBML.py:996-1032 | one iteration's carried `foundFunc`, `fName` and `expr` |
| Writer.WriteDocument | moose-core/python/moose/SBML/writeSBML.py:169-231 | compartments first; then, when one exists, the passes and groups, or no document when a pass raised |
| RollingMatrices.Zeros | moose-core/synapse/RollingMatrix.cpp:114-118 | `n` zeros |
| RollingMatrices.ResizeSeq | moose-core/synapse/RollingMatrix.cpp:36-46 | `vector::resize(n, fill)`: the first `n` elements, padded with `fill` |
| RollingMatrices.Resized | moose-core/synapse/RollingMatrix.cpp:36-46 | `n` rows of `m` entries; old entries kept where they existed and new ones zero |
| RollingMatrices.PhysicalRow | moose-core/synapse/RollingMatrix.cpp:48-52 | `(row + start) % nrows` is a valid row |
| RollingMatrices.RolledStart | moose-core/synapse/RollingMatrix.cpp:120-127 | the new start stays below `nrows` and is one step before the old one, wrapping 0 to nrows-1 |
| RollingMatrices.RollShiftsRows | moose-core/synapse/RollingMatrix.cpp:120-127 | after a roll, logical row r+1 is where logical row r was |
| RollingMatrices.RollRecyclesLastRow | moose-core/synapse/RollingMatrix.cpp:120-127 | after a roll, logical row 0 is the old last row |
| RollingMatrices.PhysicalRowInjective | moose-core/synapse/RollingMatrix.cpp:48-52 | distinct logical rows are held in distinct physical rows |
| RollingMatrices.RolledRows | moose-core/synapse/RollingMatrix.cpp:120-127 | after a roll, logical row r+1 holds what logical row r held |
| RollingMatrices.OverlapBounds | moose-core/synapse/RollingMatrix.cpp:71-86 | `dotProduct`'s bounds stay inside both the kernel and the row, and cover every column the kernel meets |
| RollingMatrices.KernelTail | moose-core/synapse/RollingMatrix.cpp:71-86 | columns past the kernel add nothing |
| RollingMatrices.KernelHead | moose-core/synapse/RollingMatrix.cpp:71-86 | columns before the kernel add nothing |
| RollingMatrices.KernelOfOne | moose-core/synapse/RollingMatrix.cpp:71-86 | a one-entry kernel picks the centre column |
| RollingMatrices.KernelOfZeros | moose-core/synapse/RollingMatrix.cpp:71-86 | a zero row gives zero |
| RollingMatrices.Grown | moose-core/synapse/RollingMatrix.cpp:102-112 | `ret` grown to `n` entries with zeros when shorter |
| RollingMatrices.RollingMatrix.constructor | moose-core/synapse/RollingMatrix.cpp:18-20 | an empty matrix with start 0 |
| RollingMatrices.RollingMatrix.Assign | moose-core/synapse/RollingMatrix.cpp:26-33 | every field copied |
| RollingMatrices.RollingMatrix.Resize | moose-core/synapse/RollingMatrix.cpp:36-46 | `n` rows of `m` entries with old entries kept and new ones zero; start reset to 0 |
| RollingMatrices.RollingMatrix.Get | moose-core/synapse/RollingMatrix.cpp:48-52 | the entry of physical row `(row + start) % nrows` |
| RollingMatrices.RollingMatrix.SumIntoEntry | moose-core/synapse/RollingMatrix.cpp:54-59 | `input` added to exactly that entry; nothing else changes |
| RollingMatrices.RollingMatrix.SumIntoRow | moose-core/synapse/RollingMatrix.cpp:61-68 | `input[i]` added to column i of the addressed row; other rows and columns unchanged |
| RollingMatrices.RollingMatrix.DotProduct | moose-core/synapse/RollingMatrix.cpp:71-100 | the kernel sum of `row[k] * input[k - c + |input|/2]` over the overlap, without leaving either bound |
| RollingMatrices.RollingMatrix.Correl | moose-core/synapse/RollingMatrix.cpp:102-112 | `ret` grown to `ncolumns`, the kernel at each column added in, entries from `ncolumns` on unchanged |
| RollingMatrices.RollingMatrix.ZeroOutRow | moose-core/synapse/RollingMatrix.cpp:114-118 | the addressed row zeroed with its length kept; other rows untouched |
| RollingMatrices.RollingMatrix.RollToNextRow | moose-core/synapse/RollingMatrix.cpp:120-127 | start moved back with wrap-around; logical row r+1 holds old row r; logical row 0 cleared to `ncolumns` zeros |

## Left out

- Annotation XML text (model, species, reaction, enzyme and compartment annotations), colours and coordinates. The model keeps only which fields a record carries.
- Kinetic-law notes and the model-level notes at writeSBML.py:155-165, beyond the notes field of a record.
- Console diagnostics (`print`), including the Km-power advisory and the skipped-enzyme messages.
- The creation of an `Annotator` for a group that has none: it only affects the MOOSE tree, not the document. An enzyme complex without `info` gets one too, but the statements after it raise (Pools.CplxWithoutInfo), so the export fails.
- `checkPath`, `validateModel` and `writeSBMLToFile`. The availability of libsbml, the existence of the model path and the validator are parameters.
- `restoreXreacs`, `recalculatecoordinates`, `autoCoordinates`, `setupMeshObj` and `writeSimulationAnnotation`: tree rewriting, floating-point layout and simulation-clock queries.
- Queries on the MOOSE tree (`wildcardFind`, `neighbors`, `exists`) are the fields of the input records. Their order is taken as given.
- The `if func:` truthiness test is taken to hold for every `Function`; `sceneitems` is reduced to a flag.
- A pass that raises is modelled as ending the export with no document (`Failed`), since the exception leaves `mooseWriteSBML`.
- Writer.SbmlDocument.RunPass: the channel, reaction and enzyme loop bodies are modelled as functions over the state, loaded into the document per element, rather than as field-by-field updates.
- Floating-point arithmetic: volumes, concentrations, rate constants and matrix entries are `real`, so rounding is not modelled.
- RollingMatrices.RollingMatrix.DotProduct: requires `startColumn <= ncolumns`, since with a larger column the unsigned subtraction in the bounds wraps around; `size_t` overflow of `row + currentStartRow` is not modelled.
- The RollingMatrix header is not part of this model; the field names follow the implementation file.
- Sanitize.IdBeginWith: only the ASCII digits `0`-`9` count as digits (`Strings.IsDigit`). Python's `str.isdigit` at writeSBML.py:1061 also accepts other Unicode digits such as `²`, so the source writes `_²x` where the model leaves `²x` alone. The same narrowing applies to Groups.GroupIdShape, MooseTree.RawIdMatchesCleanId and every other use of the digit guard.
- Pools.SpeciesGroup: the ancestor chain of an element stops below the MOOSE root `/`, so no ancestor stands for a `Neutral` with no compartment above it. When the container walk of `getGroupinfo` (writeSBML.py:1046-1057) reaches `/` (or such a `Neutral`, for a pool in a mesh class the walk does not stop at, such as a `SpineMesh`), the source files the species under it (1182-1187); the model leaves the species unfiled and builds no group for it.
- Reactions.ReacGroup: for the same reason, a reaction whose walk reaches `/` is filed under it by the source (899-904) and left unfiled by the model. Channels and enzymes skip `/` in the source (317, 490, 613), which the model matches.
- Element names are nonempty (the `MooseTree.Name` type), since a MOOSE path component cannot be empty. So the `IndexError` that `idBeginWith` (writeSBML.py:1059-1063) would raise on `name[0]` of an empty name is not modelled.
