// The entities the calculator works on (fill variables, groups, element datasets)
// and the collaborators it calls (the expression evaluator and the incrementers).
module Entities {
  import opened Values
  import opened Scopes

  /** Handle of a compiled report expression. */
  datatype Expression = Expression(id: nat)

  /** A fill variable: its declaration (name, expressions, reset and increment types and
      their groups, as indices into the calculator's groups) and its mutable state. */
  datatype Variable = Variable(
    name: string,
    expression: Expression,
    initialValueExpression: Expression,
    resetType: ResetType,
    resetGroup: nat,
    incrementType: ResetType,
    incrementGroup: nat,
    value: Obj,
    incrementedValue: Obj,
    estimatedValue: Obj,
    initialized: bool)

  /** A fill group with its break expression and the two flags the calculator sets. */
  datatype Group = FillGroup(name: string, expression: Expression, hasChanged: bool, topLevelChange: bool)

  /** An element dataset (a chart or crosstab sub-aggregate); its own state is external,
      only its reset and increment types and groups are visible to the calculator. */
  datatype ElementDataset = ElementDataset(
    resetType: ResetType,
    resetGroup: nat,
    incrementType: ResetType,
    incrementGroup: nat)

  /** A call the calculator makes on the element dataset with the given index. An evaluate
      call hands the dataset the calculator, through which it evaluates its own expressions
      against the variables; it records the variables as they stand at the call. */
  datatype DatasetCall =
    | EvaluateCall(dataset: nat, variables: seq<Variable>)
    | IncrementCall(dataset: nat)
    | InitializeCall(dataset: nat)

  /** Which values an incrementer reads from other variables. */
  datatype ValueProvider = CurrentValues | EstimatedValues

  /** The evaluation modes of `evaluate(expression, type)`; `OtherEvaluation` is any other code. */
  datatype EvaluationType = OldEvaluation | EstimatedEvaluation | DefaultEvaluation | OtherEvaluation

  /** The expression evaluator. Current and estimated evaluation read the variables
      (their values, respectively their estimated values); old evaluation reads the
      previous record and the variables' old values, which the calculator never writes, so
      it takes the expression alone. */
  datatype Evaluator = Evaluator(
    evaluate: (Expression, seq<Variable>) -> Obj,
    evaluateOld: Expression -> Obj,
    evaluateEstimated: (Expression, seq<Variable>) -> Obj)

  /** The variable's incrementer: folds an expression value into the variable, reading
      other variables through the value provider. */
  type Incrementer = (Variable, Obj, ValueProvider, seq<Variable>) -> Obj

  /** A GROUP type must name an existing group. */
  predicate BoundIn(t: ResetType, g: nat, groupCount: nat)
  {
    t == Group ==> g < groupCount
  }

  predicate VariableBound(v: Variable, groupCount: nat)
  {
    BoundIn(v.resetType, v.resetGroup, groupCount) && BoundIn(v.incrementType, v.incrementGroup, groupCount)
  }

  predicate DatasetBound(d: ElementDataset, groupCount: nat)
  {
    BoundIn(d.resetType, d.resetGroup, groupCount) && BoundIn(d.incrementType, d.incrementGroup, groupCount)
  }

  predicate VariablesBound(vs: seq<Variable>, groupCount: nat)
  {
    forall j :: 0 <= j < |vs| ==> VariableBound(vs[j], groupCount)
  }

  predicate DatasetsBound(ds: seq<ElementDataset>, groupCount: nat)
  {
    forall j :: 0 <= j < |ds| ==> DatasetBound(ds[j], groupCount)
  }

  /** The `hasChanged` flag of the group bound to a GROUP type (false for any other type). */
  function GroupChanged(gs: seq<Group>, t: ResetType, g: nat): bool
    requires BoundIn(t, g, |gs|)
  {
    t == Group && gs[g].hasChanged
  }

  /** Two variables have the same declaration: they differ at most in their mutable state. */
  predicate SameDeclaration(v: Variable, w: Variable)
  {
    v.(value := w.value, incrementedValue := w.incrementedValue,
       estimatedValue := w.estimatedValue, initialized := w.initialized) == w
  }

  /** The dispatch of `evaluate(expression, type)`: old and estimated modes go to the
      evaluator's old and estimated evaluation; the default mode, and any unrecognised
      one, to current evaluation. */
  function EvaluateAs(ev: Evaluator, expression: Expression, evaluationType: EvaluationType, vs: seq<Variable>): (r: Obj)
    ensures evaluationType == OldEvaluation ==> r == ev.evaluateOld(expression)
    ensures evaluationType == EstimatedEvaluation ==> r == ev.evaluateEstimated(expression, vs)
    ensures evaluationType != OldEvaluation && evaluationType != EstimatedEvaluation ==> r == ev.evaluate(expression, vs)
  {
    match evaluationType
    case OldEvaluation => ev.evaluateOld(expression)
    case EstimatedEvaluation => ev.evaluateEstimated(expression, vs)
    case _ => ev.evaluate(expression, vs)
  }
}
