/**
 * `writeFunc`: one assignment rule per `Function` object, whose variable
 * is the object the function drives and whose formula is the function's
 * expression with each input placeholder `x<i>` replaced by the id of the
 * `i`-th input.
 *
 * The source keeps three variables across the loop (`foundFunc`, `fName`,
 * `expr`) and does not reset them: a function on a mesh with no
 * `valueOut` target writes the previous rule again. Only the parent
 * classes `CubeMesh` and `CyclMesh` take the mesh branch, so a function
 * below a `CylMesh` takes the other one and writes a rule for the mesh.
 */
module Functions {
  import opened Strings
  import opened Sanitize
  import opened MooseTree
  import opened Elements
  import opened Sbml
  import opened Seqs

  /** `"x" + str(i)`. */
  function Placeholder(i: nat): (v: string)
    ensures |v| > 1 && v[0] == 'x'
  {
    "x" + NatToString(i)
  }

  /**
   * The id written in place of an input: the sanitized `name_id_idx`
   * with a trailing underscore, digit-guarded.
   */
  function InputId(r: Ref): string
  {
    IdBeginWith(ApplyTable(IdTable, r.name + IndexStem(r)) + "_")
  }

  /** The input id is the element's clean id, the one its species was written with. */
  lemma InputIdIsCleanId(r: Ref)
    ensures InputId(r) == CleanId(r)
  {
    IdTableSuffix(r.name, IndexStem(r));
    assert (ApplyTable(IdTable, r.name) + IndexStem(r)) + "_" == ApplyTable(IdTable, r.name) + IndexSuffix(r);
  }

  /** `z` of the substitution loop, computed as the source does. */
  method InputIdOf(r: Ref) returns (z: string)
    ensures z == CleanId(r)
  {
    var e := ConvertSpecialChar(r.name + IndexStem(r));
    z := IdBeginWith(e + "_");
    InputIdIsCleanId(r);
  }

  /**
   * The substitution loop from input `k` on: for each input whose
   * placeholder occurs in the expression, every occurrence is replaced
   * by that input's id.
   */
  function SubstituteFrom(expr: string, ids: seq<string>, k: nat): string
    requires k <= |ids|
    decreases |ids| - k
  {
    if k == |ids| then expr
    else
      var v := Placeholder(k);
      SubstituteFrom(if IsSubstring(v, expr) then ReplaceAll(expr, v, ids[k]) else expr, ids, k + 1)
  }

  /** The ids of a function's inputs, in the order of its `x` field. */
  function InputIds(inputs: seq<Ref>): (ids: seq<string>)
    ensures |ids| == |inputs|
    ensures forall i :: 0 <= i < |inputs| ==> ids[i] == CleanId(inputs[i])
  {
    MapFrom(CleanId, inputs, 0)
  }

  function Substitute(expr: string, inputs: seq<Ref>): string
  {
    SubstituteFrom(expr, InputIds(inputs), 0)
  }

  /** The same replacements made unconditionally. */
  function ReplaceEachFrom(expr: string, ids: seq<string>, k: nat): string
    requires k <= |ids|
    decreases |ids| - k
  {
    if k == |ids| then expr else ReplaceEachFrom(ReplaceAll(expr, Placeholder(k), ids[k]), ids, k + 1)
  }

  /**
   * The `if v in expr` guard changes nothing: the substitution is the
   * plain sequence of replacements.
   */
  lemma {:induction false} SubstituteUnguarded(expr: string, ids: seq<string>, k: nat)
    requires k <= |ids|
    ensures SubstituteFrom(expr, ids, k) == ReplaceEachFrom(expr, ids, k)
    decreases |ids| - k
  {
    if k < |ids| {
      var v := Placeholder(k);
      if !IsSubstring(v, expr) {
        ReplaceAllAbsent(expr, v, ids[k]);
      }
      SubstituteUnguarded(if IsSubstring(v, expr) then ReplaceAll(expr, v, ids[k]) else expr, ids, k + 1);
    }
  }

  /** A substring's first character occurs in the string. */
  lemma HeadInString(v: string, s: string)
    requires |v| > 0 && IsSubstring(v, s)
    ensures v[0] in s
  {
    IsSubstringSound(v, s);
    var k: nat :| OccursAt(v, s, k);
    assert s[k] == s[k..k + |v|][0];
  }

  /** An expression without any `x` mentions no input and is written as it is. */
  lemma {:induction false} SubstituteNoPlaceholder(expr: string, ids: seq<string>, k: nat)
    requires k <= |ids|
    requires 'x' !in expr
    ensures SubstituteFrom(expr, ids, k) == expr
    decreases |ids| - k
  {
    if k < |ids| {
      if IsSubstring(Placeholder(k), expr) {
        HeadInString(Placeholder(k), expr);
      }
      SubstituteNoPlaceholder(expr, ids, k + 1);
    }
  }

  /** One input of the substitution loop. */
  lemma SubstituteStep(expr: string, ids: seq<string>, k: nat)
    requires k < |ids|
    ensures SubstituteFrom(expr, ids, k) ==
      SubstituteFrom(if IsSubstring(Placeholder(k), expr) then ReplaceAll(expr, Placeholder(k), ids[k]) else expr, ids, k + 1)
  {
  }

  /** The substitution loop, a replacement per input whose placeholder occurs. */
  method SubstituteInputs(expr: string, inputs: seq<Ref>) returns (r: string)
    ensures r == Substitute(expr, inputs)
  {
    ghost var ids := InputIds(inputs);
    r := expr;
    var i := 0;
    while i < |inputs|
      invariant 0 <= i <= |inputs|
      invariant SubstituteFrom(r, ids, i) == Substitute(expr, inputs)
    {
      SubstituteStep(r, ids, i);
      var v := Placeholder(i);
      if IsSubstring(v, r) {
        var z := InputIdOf(inputs[i]);
        assert z == ids[i];
        r := ReplaceAll(r, v, z);
      }
      i := i + 1;
    }
  }

  /** `foundFunc`, `fName` and `expr` as the loop carries them. */
  datatype FuncCarry = FuncCarry(found: bool, variable: string, formula: string)

  /** Before the first function: nothing found (the other two are unset). */
  const NoFunc := FuncCarry(false, "", "")

  /** The parent classes that take the `valueOut` branch, as the source spells them. */
  predicate OnMesh(f: Func)
  {
    f.parentClass == "CubeMesh" || f.parentClass == "CyclMesh"
  }

  /**
   * One iteration's update of the carried variables. The variable's id
   * is the clean id of the target (`idBeginWith(convertSpecialChar(...))`
   * of its `name_id_idx_`, which `CleanIdWhole` shows equal).
   */
  function FuncStep(c: FuncCarry, f: Func): FuncCarry
  {
    if OnMesh(f) then
      if f.valueOut == [] then c
      else if f.expr != "" then FuncCarry(true, CleanId(f.valueOut[0]), Substitute(f.expr, f.inputs))
      else FuncCarry(c.found, CleanId(f.valueOut[0]), f.expr)
    else FuncCarry(true, CleanId(f.parent), Substitute(f.expr, f.inputs))
  }

  /** The rule an iteration writes: the carried one, once any function was found. */
  function RuleOf(c: FuncCarry): seq<Rule>
  {
    if c.found then [Rule(c.variable, c.formula)] else []
  }

  /** The rules written for `fs[k..]`, starting with carry `c`. */
  function FuncRules(c: FuncCarry, fs: seq<Func>, k: nat): seq<Rule>
    requires k <= |fs|
    decreases |fs| - k
  {
    if k == |fs| then []
    else
      var next := FuncStep(c, fs[k]);
      RuleOf(next) + FuncRules(next, fs, k + 1)
  }

  /** `writeFunc` on the functions `fs`, in the order of the tree's search. */
  function WriteFuncSpec(st: State, fs: seq<Func>): State
  {
    st.(rules := st.rules + FuncRules(NoFunc, fs, 0))
  }

  /**
   * After an iteration a rule is pending exactly when one was before, or
   * the function is not on a mesh, or it drives a target with a nonempty
   * expression.
   */
  lemma FuncStepFound(c: FuncCarry, f: Func)
    ensures FuncStep(c, f).found <==> c.found || !OnMesh(f) || (f.valueOut != [] && f.expr != "")
  {
  }

  /** The rule of a function not on a mesh sets its parent from the substituted expression. */
  lemma ParentRule(c: FuncCarry, f: Func)
    requires !OnMesh(f)
    ensures RuleOf(FuncStep(c, f)) == [Rule(CleanId(f.parent), Substitute(f.expr, f.inputs))]
  {
  }

  /**
   * On a mesh, a function with a target sets that target's id; the
   * formula is the substituted expression, or empty when the expression is.
   */
  lemma TargetRule(c: FuncCarry, f: Func)
    requires OnMesh(f) && f.valueOut != []
    ensures FuncStep(c, f).variable == CleanId(f.valueOut[0])
    ensures FuncStep(c, f).formula == if f.expr != "" then Substitute(f.expr, f.inputs) else ""
  {
  }

  /** On a mesh, a function without a target writes the previous rule again. */
  lemma UntargetedRepeats(c: FuncCarry, f: Func)
    requires OnMesh(f) && f.valueOut == []
    ensures RuleOf(FuncStep(c, f)) == RuleOf(c)
  {
  }

  /** A function below a `CylMesh` writes a rule for the mesh itself. */
  lemma CylMeshRule(c: FuncCarry, f: Func)
    requires f.parentClass == "CylMesh"
    ensures RuleOf(FuncStep(c, f)) == [Rule(CleanId(f.parent), Substitute(f.expr, f.inputs))]
  {
  }

  /**
   * At most one rule per function; exactly one per function once a rule
   * is pending, since `foundFunc` is never reset.
   */
  lemma {:induction false} FuncRulesCount(c: FuncCarry, fs: seq<Func>, k: nat)
    requires k <= |fs|
    ensures |FuncRules(c, fs, k)| <= |fs| - k
    ensures c.found ==> |FuncRules(c, fs, k)| == |fs| - k
    decreases |fs| - k
  {
    if k < |fs| {
      FuncRulesCount(FuncStep(c, fs[k]), fs, k + 1);
    }
  }

  /** The rule written for a function that is not on a mesh. */
  function ParentRuleOf(f: Func): Rule
  {
    Rule(CleanId(f.parent), Substitute(f.expr, f.inputs))
  }

  /**
   * When no function is on a mesh, each writes its own rule, in order:
   * nothing leaks from one iteration into the next.
   */
  lemma {:induction false} FuncRulesOffMesh(c: FuncCarry, fs: seq<Func>, k: nat)
    requires k <= |fs|
    requires forall i :: k <= i < |fs| ==> !OnMesh(fs[i])
    ensures FuncRules(c, fs, k) == MapFrom(ParentRuleOf, fs, k)
    decreases |fs| - k
  {
    if k < |fs| {
      FuncRulesOffMesh(FuncStep(c, fs[k]), fs, k + 1);
    }
  }

  /** The pass adds rules and changes nothing else. */
  lemma WriteFuncOnlyRules(st: State, fs: seq<Func>)
    ensures WriteFuncSpec(st, fs).(rules := st.rules) == st
    ensures st.rules <= WriteFuncSpec(st, fs).rules
    ensures |WriteFuncSpec(st, fs).rules| <= |st.rules| + |fs|
  {
    FuncRulesCount(NoFunc, fs, 0);
  }
}
