// The calculator of a report fill: per-record calculation of the variables, look-ahead
// estimation, group break estimation and initialization at layout boundaries.
module Fill {
  import opened Values
  import opened Scopes
  import opened Entities
  import opened VariablePasses
  import opened GroupBreaks
  import opened DatasetCalls

  class Calculator {
    const evaluator: Evaluator
    const incrementer: Incrementer
    const variables: array<Variable>
    const groups: array<Group>   // outermost first
    const datasets: array<ElementDataset>
    /** The calls made so far on the element datasets, whose own state is external. */
    var calls: seq<DatasetCall>

    /** Every GROUP reset or increment type names one of the calculator's groups. */
    ghost predicate Valid()
      reads variables, datasets
    {
      VariablesBound(variables[..], groups.Length) && DatasetsBound(datasets[..], groups.Length)
    }

    constructor (evaluator: Evaluator, incrementer: Incrementer,
                 variables: array<Variable>, groups: array<Group>, datasets: array<ElementDataset>)
      requires VariablesBound(variables[..], groups.Length) && DatasetsBound(datasets[..], groups.Length)
      ensures Valid()
      ensures this.evaluator == evaluator && this.incrementer == incrementer
      ensures this.variables == variables && this.groups == groups && this.datasets == datasets
      ensures calls == []
    {
      this.evaluator := evaluator;
      this.incrementer := incrementer;
      this.variables := variables;
      this.groups := groups;
      this.datasets := datasets;
      calls := [];
    }

    /** `calculateVariables`: folds the current record into every variable, then lets every
        element dataset evaluate it against the updated variables (and increment, for
        increment type NONE). */
    method CalculateVariables()
      requires Valid()
      modifies this, variables
      ensures Valid()
      ensures variables[..] == CalculatePass(evaluator, incrementer, old(variables[..]), variables.Length)
      ensures calls == old(calls) + CalculateCalls(datasets[..], datasets.Length, variables[..])
    {
      var i := 0;
      while i < variables.Length
        invariant 0 <= i <= variables.Length
        invariant variables[..] == CalculatePass(evaluator, incrementer, old(variables[..]), i)
        invariant calls == old(calls)
      {
        ghost var before := variables[..];
        var variable := variables[i];
        var expressionValue := evaluator.evaluate(variable.expression, variables[..]);
        var newValue := incrementer(variable, expressionValue, CurrentValues, variables[..]);
        variables[i] := variables[i].(value := newValue);
        variables[i] := variables[i].(initialized := false);
        if variable.incrementType == NoReset {
          variables[i] := variables[i].(incrementedValue := variables[i].value);
        }
        assert variables[..] == before[i := Calculated(evaluator, incrementer, before, i)];
        i := i + 1;
      }
      CalculatePassEffect(evaluator, incrementer, old(variables[..]), variables.Length);
      EvaluateDatasets();
    }

    /** The dataset loop of `calculateVariables`: each dataset evaluates against the
        variables as they stand. */
    method EvaluateDatasets()
      modifies this
      ensures calls == old(calls) + CalculateCalls(datasets[..], datasets.Length, variables[..])
    {
      var k := 0;
      while k < datasets.Length
        invariant 0 <= k <= datasets.Length
        invariant calls == old(calls) + CalculateCalls(datasets[..], k, variables[..])
      {
        ghost var before := calls;
        var elementDataset := datasets[k];
        calls := calls + [EvaluateCall(k, variables[..])];
        if elementDataset.incrementType == NoReset {
          calls := calls + [IncrementCall(k)];
        }
        assert calls == before + CalculateDatasetCalls(datasets[k], k, variables[..]);
        k := k + 1;
      }
    }

    /** `estimateVariables`: recomputes every variable's estimated value and nothing else. */
    method EstimateVariables()
      requires Valid()
      modifies variables
      ensures Valid()
      ensures variables[..] == EstimatePass(evaluator, incrementer, old(variables[..]), variables.Length)
    {
      var i := 0;
      while i < variables.Length
        invariant 0 <= i <= variables.Length
        invariant variables[..] == EstimatePass(evaluator, incrementer, old(variables[..]), i)
      {
        ghost var before := variables[..];
        var variable := variables[i];
        var expressionValue := evaluator.evaluateEstimated(variable.expression, variables[..]);
        var newValue := incrementer(variable, expressionValue, EstimatedValues, variables[..]);
        variables[i] := variables[i].(estimatedValue := newValue);
        assert variables[..] == before[i := Estimated(evaluator, incrementer, before, i)];
        i := i + 1;
      }
      EstimateWritesOnlyEstimates(evaluator, incrementer, old(variables[..]), variables.Length);
    }

    /** `estimateGroupRuptures`: decides from estimated values which groups break. */
    method EstimateGroupRuptures()
      requires Valid()
      modifies variables, groups
      ensures Valid()
      ensures groups.Length == 0 ==> variables[..] == old(variables[..]) && groups[..] == old(groups[..])
      ensures groups.Length > 0 ==>
        var marked := MarkChanges(old(groups[..]), ChangeFlags(evaluator, old(groups[..]), old(variables[..])));
        var reestimated := EstimatePass(evaluator, incrementer, SnapshotPass(old(variables[..]), marked), variables.Length);
        variables[..] == reestimated &&
        groups[..] == Cascade(old(groups[..]), ChangeFlags(evaluator, old(groups[..]), reestimated))
    {
      if groups.Length > 0 {
        // a first estimation pass, so that inner GROUP-incremented variables can snapshot
        // before they take part in the break expressions of outer groups
        MarkGroupChanges();
        SnapshotGroupIncrements();
        // estimate again, so that the snapshots reach the estimated values
        EstimateVariables();
        ghost var marked := groups[..];
        CascadeGroupChanges();
        BreaksIgnoreFlags(evaluator, old(groups[..]), marked, variables[..],
                          ChangeFlags(evaluator, marked, variables[..]));
      }
    }

    /** Step 1 of `estimateGroupRuptures`: each group, innermost first, is marked changed
        when its break expression differs between old and estimated evaluation. */
    method MarkGroupChanges()
      modifies groups
      ensures groups[..] == MarkChanges(old(groups[..]), ChangeFlags(evaluator, old(groups[..]), variables[..]))
    {
      ghost var marked := MarkChanges(groups[..], ChangeFlags(evaluator, groups[..], variables[..]));
      var i := groups.Length;
      while i > 0
        invariant 0 <= i <= groups.Length
        invariant forall j :: 0 <= j < i ==> groups[j] == old(groups[j])
        invariant forall j :: i <= j < groups.Length ==> groups[j] == marked[j]
      {
        i := i - 1;
        var group := groups[i];
        var oldValue := evaluator.evaluateOld(group.expression);
        var estimatedValue := evaluator.evaluateEstimated(group.expression, variables[..]);
        if Differs(oldValue, estimatedValue) {
          groups[i] := groups[i].(hasChanged := true);
        } else {
          groups[i] := groups[i].(hasChanged := false);
        }
      }
      assert groups[..] == marked;
    }

    /** Step 2 of `estimateGroupRuptures`: GROUP-incremented variables of changed groups
        snapshot their value. */
    method SnapshotGroupIncrements()
      requires Valid()
      modifies variables
      ensures Valid()
      ensures variables[..] == SnapshotPass(old(variables[..]), groups[..])
    {
      var v := 0;
      while v < variables.Length
        invariant 0 <= v <= variables.Length
        invariant forall j :: 0 <= j < v ==> variables[j] == Snapshot(old(variables[j]), groups[..])
        invariant forall j :: v <= j < variables.Length ==> variables[j] == old(variables[j])
      {
        var variable := variables[v];
        if variable.incrementType == Group {
          var group := groups[variable.incrementGroup];
          if group.hasChanged {
            variables[v] := variables[v].(incrementedValue := variables[v].value);
          }
        }
        v := v + 1;
      }
      assert variables[..] == SnapshotPass(old(variables[..]), groups[..]);
    }

    /** Step 4 of `estimateGroupRuptures`: outermost first, the first group whose break
        expression differs is the top-level change, and it and every group after it have changed. */
    method CascadeGroupChanges()
      modifies groups
      ensures groups[..] == Cascade(old(groups[..]), ChangeFlags(evaluator, old(groups[..]), variables[..]))
    {
      ghost var flags := ChangeFlags(evaluator, groups[..], variables[..]);
      ghost var k := FirstChange(flags);
      var groupHasChanged := false;
      var g := 0;
      while g < groups.Length
        invariant 0 <= g <= groups.Length
        invariant groupHasChanged <==> k < g
        invariant forall j :: 0 <= j < g ==> groups[j] == Cascade(old(groups[..]), flags)[j]
        invariant forall j :: g <= j < groups.Length ==> groups[j] == old(groups[j])
      {
        var group := groups[g];
        var isTopLevelChange := false;
        if !groupHasChanged {
          var oldValue := evaluator.evaluateOld(group.expression);
          var estimatedValue := evaluator.evaluateEstimated(group.expression, variables[..]);
          if Differs(oldValue, estimatedValue) {
            groupHasChanged := true;
            isTopLevelChange := true;
          }
        }
        groups[g] := groups[g].(hasChanged := groupHasChanged);
        groups[g] := groups[g].(topLevelChange := isTopLevelChange);
        g := g + 1;
      }
      assert groups[..] == Cascade(old(groups[..]), flags);
    }

    /** `incrementVariable`: the increment step of `initializeVariables(incrementType)`. */
    method IncrementVariable(i: nat, incrementType: ResetType)
      requires Valid() && i < variables.Length
      modifies variables
      ensures variables[..] == old(variables[..])[i := Incremented(old(variables[i]), incrementType, groups[..])]
    {
      var variable := variables[i];
      if variable.incrementType != NoReset {
        var toIncrement := Applies(incrementType, variable.incrementType,
                                   GroupChanged(groups[..], variable.incrementType, variable.incrementGroup));
        if toIncrement {
          variables[i] := variables[i].(incrementedValue := variables[i].value);
        }
      } else {
        variables[i] := variables[i].(incrementedValue := variables[i].value);
      }
    }

    /** `initializeVariable`: the initialize step of `initializeVariables(resetType)`. */
    method InitializeVariable(i: nat, resetType: ResetType)
      requires Valid() && i < variables.Length
      modifies variables
      ensures variables[..] == old(variables[..])[i := Initialized(evaluator, old(variables[..]), i, resetType, groups[..])]
    {
      var variable := variables[i];
      if variable.resetType != NoReset {
        var toInitialize := Applies(resetType, variable.resetType,
                                    GroupChanged(groups[..], variable.resetType, variable.resetGroup));
        if toInitialize {
          var initialValue := evaluator.evaluate(variable.initialValueExpression, variables[..]);
          variables[i] := variables[i].(value := initialValue);
          variables[i] := variables[i].(initialized := true);
          variables[i] := variables[i].(incrementedValue := None);
        }
      } else {
        var newValue := evaluator.evaluate(variable.expression, variables[..]);
        variables[i] := variables[i].(value := newValue);
        variables[i] := variables[i].(incrementedValue := variables[i].value);
      }
    }

    /** `incrementDataset`: increments the dataset when the boundary reaches its increment type. */
    method IncrementDataset(i: nat, incrementType: ResetType)
      requires Valid() && i < datasets.Length
      modifies this
      ensures calls == old(calls) + if DatasetIncrementApplies(datasets[i], incrementType, groups[..]) then [IncrementCall(i)] else []
    {
      var elementDataset := datasets[i];
      if elementDataset.incrementType != NoReset {
        var toIncrement := Applies(incrementType, elementDataset.incrementType,
                                   GroupChanged(groups[..], elementDataset.incrementType, elementDataset.incrementGroup));
        if toIncrement {
          calls := calls + [IncrementCall(i)];
        }
      }
    }

    /** `initializeDataset`: initializes the dataset when the boundary reaches its reset type. */
    method InitializeDataset(i: nat, resetType: ResetType)
      requires Valid() && i < datasets.Length
      modifies this
      ensures calls == old(calls) + if DatasetResetApplies(datasets[i], resetType, groups[..]) then [InitializeCall(i)] else []
    {
      var elementDataset := datasets[i];
      var toInitialize := Applies(resetType, elementDataset.resetType,
                                  GroupChanged(groups[..], elementDataset.resetType, elementDataset.resetGroup));
      if toInitialize {
        calls := calls + [InitializeCall(i)];
      }
    }

    /** `initializeVariables`: the increment and initialize steps of a layout boundary,
        variable by variable, then dataset by dataset. */
    method InitializeVariables(resetType: ResetType)
      requires Valid()
      modifies this, variables
      ensures Valid()
      ensures variables[..] == InitializePass(evaluator, old(variables[..]), groups[..], resetType, variables.Length)
      ensures calls == old(calls) + InitializeCalls(datasets[..], groups[..], resetType, datasets.Length)
    {
      var i := 0;
      while i < variables.Length
        invariant 0 <= i <= variables.Length
        invariant Valid()
        invariant variables[..] == InitializePass(evaluator, old(variables[..]), groups[..], resetType, i)
        invariant calls == old(calls)
      {
        ghost var before := variables[..];
        IncrementVariable(i, resetType);
        InitializeVariable(i, resetType);
        assert variables[..] == InitializeStep(evaluator, before, i, resetType, groups[..]);
        InitializeStepIsUpdate(evaluator, before, i, resetType, groups[..]);
        i := i + 1;
      }
      InitializeDatasets(resetType);
    }

    /** The dataset loop of `initializeVariables`. */
    method InitializeDatasets(resetType: ResetType)
      requires Valid()
      modifies this
      ensures calls == old(calls) + InitializeCalls(datasets[..], groups[..], resetType, datasets.Length)
    {
      ghost var ds, gs := datasets[..], groups[..];
      var k := 0;
      while k < datasets.Length
        invariant 0 <= k <= datasets.Length
        invariant calls == old(calls) + InitializeCalls(ds, gs, resetType, k)
      {
        ghost var before := calls;
        IncrementDataset(k, resetType);
        InitializeDataset(k, resetType);
        assert calls == before + InitializeDatasetCalls(ds[k], k, gs, resetType);
        k := k + 1;
      }
    }
  }
}
