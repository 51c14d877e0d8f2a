// What each pass of the calculator over its variables does, one variable at a time,
// as functions of the variables' state before the pass.
module VariablePasses {
  import opened Values
  import opened Scopes
  import opened Entities

  // ---------------------------------------------------------------- calculateVariables

  /** Variable `i` after its per-record update, evaluated against the state `vs`
      in which the variables before it are already updated. */
  function Calculated(ev: Evaluator, inc: Incrementer, vs: seq<Variable>, i: nat): Variable
    requires i < |vs|
  {
    var v := vs[i];
    var newValue := inc(v, ev.evaluate(v.expression, vs), CurrentValues, vs);
    v.(value := newValue, initialized := false,
       incrementedValue := if v.incrementType == NoReset then newValue else v.incrementedValue)
  }

  /** The variables after the first `n` iterations of `calculateVariables`, which updates
      them in index order, each against the state the earlier iterations left; the variables
      from `n` on are untouched. */
  function CalculatePass(ev: Evaluator, inc: Incrementer, vs: seq<Variable>, n: nat): (r: seq<Variable>)
    requires n <= |vs|
    ensures |r| == |vs|
    ensures forall j :: n <= j < |vs| ==> r[j] == vs[j]
  {
    if n == 0 then vs else
      var s := CalculatePass(ev, inc, vs, n - 1);
      s[n - 1 := Calculated(ev, inc, s, n - 1)]
  }

  /** After `n` iterations, variable `j < n` holds what iteration `j` gave it. */
  lemma {:induction false} CalculatePassAt(ev: Evaluator, inc: Incrementer, vs: seq<Variable>, n: nat, j: nat)
    requires j < n <= |vs|
    ensures CalculatePass(ev, inc, vs, n)[j] == Calculated(ev, inc, CalculatePass(ev, inc, vs, j), j)
  {
    if j < n - 1 {
      CalculatePassAt(ev, inc, vs, n - 1, j);
    }
  }

  /** After `calculateVariables`, every variable keeps its declaration and estimate and is no
      longer initialized; a variable whose increment type is NONE has its snapshot equal to its
      new value, the others keep their snapshot. */
  lemma {:induction false} CalculatePassEffect(ev: Evaluator, inc: Incrementer, vs: seq<Variable>, n: nat)
    requires n <= |vs|
    ensures forall j :: 0 <= j < n ==>
      var r := CalculatePass(ev, inc, vs, n)[j];
      SameDeclaration(r, vs[j]) && r.estimatedValue == vs[j].estimatedValue && !r.initialized &&
      r.incrementedValue == if vs[j].incrementType == NoReset then r.value else vs[j].incrementedValue
  {
    if n > 0 {
      CalculatePassEffect(ev, inc, vs, n - 1);
      var s := CalculatePass(ev, inc, vs, n - 1);
      var r := CalculatePass(ev, inc, vs, n);
      assert r == s[n - 1 := Calculated(ev, inc, s, n - 1)];
      assert s[n - 1] == vs[n - 1];
      forall j | 0 <= j < n - 1
        ensures r[j] == s[j]
      {
      }
    }
  }

  /** After `j` iterations, the variables before `j` hold their final state and the others
      are untouched. */
  lemma CalculatePassState(ev: Evaluator, inc: Incrementer, vs: seq<Variable>, j: nat)
    requires j <= |vs|
    ensures CalculatePass(ev, inc, vs, j) == CalculatePass(ev, inc, vs, |vs|)[..j] + vs[j..]
  {
    var r := CalculatePass(ev, inc, vs, |vs|);
    var p := CalculatePass(ev, inc, vs, j);
    forall k | 0 <= k < |vs|
      ensures p[k] == (r[..j] + vs[j..])[k]
    {
      if k < j {
        CalculatePassAt(ev, inc, vs, |vs|, k);
        CalculatePassAt(ev, inc, vs, j, k);
      }
    }
  }

  /** The new value of each variable in `calculateVariables`: its incrementer folds the
      current value of its expression into it, both evaluated in the state where the
      variables before it already hold their new values and it and those after it do not. */
  lemma CalculatePassValues(ev: Evaluator, inc: Incrementer, vs: seq<Variable>, j: nat)
    requires j < |vs|
    ensures var r := CalculatePass(ev, inc, vs, |vs|);
      var state := r[..j] + vs[j..];
      r[j].value == inc(vs[j], ev.evaluate(vs[j].expression, state), CurrentValues, state)
  {
    CalculatePassState(ev, inc, vs, j);
    CalculatePassAt(ev, inc, vs, |vs|, j);
  }

  // ---------------------------------------------------------------- estimateVariables

  /** Variable `i` with its estimate recomputed against the state `vs`. */
  function Estimated(ev: Evaluator, inc: Incrementer, vs: seq<Variable>, i: nat): Variable
    requires i < |vs|
  {
    var v := vs[i];
    v.(estimatedValue := inc(v, ev.evaluateEstimated(v.expression, vs), EstimatedValues, vs))
  }

  /** The variables after the first `n` iterations of `estimateVariables`; the variables from
      `n` on are untouched. */
  function EstimatePass(ev: Evaluator, inc: Incrementer, vs: seq<Variable>, n: nat): (r: seq<Variable>)
    requires n <= |vs|
    ensures |r| == |vs|
    ensures forall j :: n <= j < |vs| ==> r[j] == vs[j]
  {
    if n == 0 then vs else
      var s := EstimatePass(ev, inc, vs, n - 1);
      s[n - 1 := Estimated(ev, inc, s, n - 1)]
  }

  /** After `n` iterations of `estimateVariables`, variable `j < n` holds what iteration `j`
      gave it. */
  lemma {:induction false} EstimatePassAt(ev: Evaluator, inc: Incrementer, vs: seq<Variable>, n: nat, j: nat)
    requires j < n <= |vs|
    ensures EstimatePass(ev, inc, vs, n)[j] == Estimated(ev, inc, EstimatePass(ev, inc, vs, j), j)
  {
    if j < n - 1 {
      EstimatePassAt(ev, inc, vs, n - 1, j);
    }
  }

  /** `estimateVariables` writes only the estimated values: value, snapshot, initialized flag
      and declaration of every variable stay as they were. */
  lemma {:induction false} EstimateWritesOnlyEstimates(ev: Evaluator, inc: Incrementer, vs: seq<Variable>, n: nat)
    requires n <= |vs|
    ensures forall j :: 0 <= j < |vs| ==>
      EstimatePass(ev, inc, vs, n)[j] == vs[j].(estimatedValue := EstimatePass(ev, inc, vs, n)[j].estimatedValue)
  {
    if n > 0 {
      EstimateWritesOnlyEstimates(ev, inc, vs, n - 1);
      var s := EstimatePass(ev, inc, vs, n - 1);
      var r := EstimatePass(ev, inc, vs, n);
      assert r == s[n - 1 := Estimated(ev, inc, s, n - 1)];
      forall j | 0 <= j < |vs|
        ensures r[j] == vs[j].(estimatedValue := r[j].estimatedValue)
      {
        if j != n - 1 {
          assert r[j] == s[j];
        }
      }
    }
  }

  /** After `j` iterations, the variables before `j` hold their final estimate and the others
      are untouched. */
  lemma EstimatePassState(ev: Evaluator, inc: Incrementer, vs: seq<Variable>, j: nat)
    requires j <= |vs|
    ensures EstimatePass(ev, inc, vs, j) == EstimatePass(ev, inc, vs, |vs|)[..j] + vs[j..]
  {
    var r := EstimatePass(ev, inc, vs, |vs|);
    var p := EstimatePass(ev, inc, vs, j);
    forall k | 0 <= k < |vs|
      ensures p[k] == (r[..j] + vs[j..])[k]
    {
      if k < j {
        EstimatePassAt(ev, inc, vs, |vs|, k);
        EstimatePassAt(ev, inc, vs, j, k);
      }
    }
  }

  /** The estimate `estimateVariables` writes into each variable: its incrementer, reading
      estimated values, folds the estimated value of its expression into it, both evaluated in
      the state where the variables before it already hold their new estimates and it and those
      after it do not. */
  lemma EstimatePassValues(ev: Evaluator, inc: Incrementer, vs: seq<Variable>, j: nat)
    requires j < |vs|
    ensures var r := EstimatePass(ev, inc, vs, |vs|);
      var state := r[..j] + vs[j..];
      r[j].estimatedValue == inc(vs[j], ev.evaluateEstimated(vs[j].expression, state), EstimatedValues, state)
  {
    EstimatePassState(ev, inc, vs, j);
    EstimatePassAt(ev, inc, vs, |vs|, j);
  }

  /** `vs` and `ws` agree on every variable except, from index `i` on, in the estimate. */
  predicate AgreeBelow(vs: seq<Variable>, ws: seq<Variable>, i: nat)
  {
    |vs| == |ws| &&
    forall j :: 0 <= j < |vs| ==>
      vs[j].(estimatedValue := None) == ws[j].(estimatedValue := None) && (j < i ==> vs[j] == ws[j])
  }

  /** Variables are estimated from the estimates of earlier variables only (as an average
      reads its count and sum helpers, declared before it), never their own or later ones. */
  ghost predicate ReadsEarlierEstimates(ev: Evaluator, inc: Incrementer)
  {
    forall vs: seq<Variable>, ws: seq<Variable>, i: nat {:trigger Estimated(ev, inc, vs, i), Estimated(ev, inc, ws, i)} ::
      i < |vs| && AgreeBelow(vs, ws, i) ==> Estimated(ev, inc, vs, i) == Estimated(ev, inc, ws, i)
  }

  /** The finished estimate agrees with the state after `i` iterations below `i`. */
  lemma EstimatePassAgreeBelow(ev: Evaluator, inc: Incrementer, vs: seq<Variable>, i: nat)
    requires i <= |vs|
    ensures AgreeBelow(EstimatePass(ev, inc, vs, |vs|), EstimatePass(ev, inc, vs, i), i)
  {
    var a, s := EstimatePass(ev, inc, vs, |vs|), EstimatePass(ev, inc, vs, i);
    EstimateWritesOnlyEstimates(ev, inc, vs, |vs|);
    EstimateWritesOnlyEstimates(ev, inc, vs, i);
    forall j | 0 <= j < |vs|
      ensures a[j].(estimatedValue := None) == s[j].(estimatedValue := None)
    {
      assert a[j].(estimatedValue := None) == vs[j].(estimatedValue := None);
      assert s[j].(estimatedValue := None) == vs[j].(estimatedValue := None);
    }
    forall j | 0 <= j < i
      ensures a[j] == s[j]
    {
      EstimatePassAt(ev, inc, vs, |vs|, j);
      EstimatePassAt(ev, inc, vs, i, j);
    }
  }

  /** Under the read discipline, re-estimating any variable of the finished estimate gives
      back the estimate it already holds. */
  lemma EstimateSettled(ev: Evaluator, inc: Incrementer, vs: seq<Variable>, k: nat)
    requires ReadsEarlierEstimates(ev, inc) && k < |vs|
    ensures Estimated(ev, inc, EstimatePass(ev, inc, vs, |vs|), k) == EstimatePass(ev, inc, vs, |vs|)[k]
  {
    var a, s := EstimatePass(ev, inc, vs, |vs|), EstimatePass(ev, inc, vs, k);
    EstimatePassAgreeBelow(ev, inc, vs, k);
    EstimatePassAt(ev, inc, vs, |vs|, k);
    assert Estimated(ev, inc, a, k) == Estimated(ev, inc, s, k);
  }

  /** A state in which every variable already holds its re-estimate is left unchanged by
      the first `i` iterations. */
  lemma {:induction false} EstimatePassFixed(ev: Evaluator, inc: Incrementer, a: seq<Variable>, i: nat)
    requires i <= |a|
    requires forall k :: 0 <= k < |a| ==> Estimated(ev, inc, a, k) == a[k]
    ensures EstimatePass(ev, inc, a, i) == a
  {
    if i > 0 {
      EstimatePassFixed(ev, inc, a, i - 1);
      assert a[i - 1 := Estimated(ev, inc, a, i - 1)] == a;
    }
  }

  /** Estimating twice in a row gives the same estimates as estimating once, provided
      estimates are read only from earlier variables. */
  lemma EstimateIdempotent(ev: Evaluator, inc: Incrementer, vs: seq<Variable>)
    requires ReadsEarlierEstimates(ev, inc)
    ensures EstimatePass(ev, inc, EstimatePass(ev, inc, vs, |vs|), |vs|) == EstimatePass(ev, inc, vs, |vs|)
  {
    var a := EstimatePass(ev, inc, vs, |vs|);
    forall k | 0 <= k < |a|
      ensures Estimated(ev, inc, a, k) == a[k]
    {
      EstimateSettled(ev, inc, vs, k);
    }
    EstimatePassFixed(ev, inc, a, |vs|);
  }

  /** Two variables, the first estimated from the second's estimate (read ahead). */
  function ReadAheadVariables(): seq<Variable>
  {
    [Variable("first", Expression(0), Expression(0), Report, 0, NoReset, 0, None, None, None, true),
     Variable("second", Expression(1), Expression(1), Report, 0, NoReset, 0, None, None, None, true)]
  }

  function ReadAheadEvaluator(): Evaluator
  {
    Evaluator(
      (e: Expression, vs: seq<Variable>) => None,
      (e: Expression) => None,
      (e: Expression, vs: seq<Variable>) =>
        if e.id == 0 then (if |vs| > 1 then vs[1].estimatedValue else None) else Some(Number(1)))
  }

  /** Without the read discipline, estimating twice differs from estimating once: the first
      variable reads the second variable's estimate of the previous pass. */
  lemma EstimateNotIdempotentInGeneral()
    ensures var inc: Incrementer := (v: Variable, x: Obj, p: ValueProvider, vs: seq<Variable>) => x;
      var once := EstimatePass(ReadAheadEvaluator(), inc, ReadAheadVariables(), 2);
      EstimatePass(ReadAheadEvaluator(), inc, once, 2)[0].estimatedValue == Some(Number(1)) &&
      once[0].estimatedValue == None
  {
    var ev, inc: Incrementer := ReadAheadEvaluator(), (v: Variable, x: Obj, p: ValueProvider, vs: seq<Variable>) => x;
    var vs := ReadAheadVariables();
    var s1 := vs[0 := Estimated(ev, inc, vs, 0)];
    var s2 := s1[1 := Estimated(ev, inc, s1, 1)];
    assert s1[0].estimatedValue == None;
    assert s2[1].estimatedValue == Some(Number(1));
    assert EstimatePass(ev, inc, vs, 1) == s1;
    assert EstimatePass(ev, inc, vs, 2) == s2;
    var t1 := s2[0 := Estimated(ev, inc, s2, 0)];
    assert t1[0].estimatedValue == Some(Number(1));
    assert EstimatePass(ev, inc, s2, 1) == t1;
    assert EstimatePass(ev, inc, s2, 2)[0] == t1[0];
  }

  // ---------------------------------------------------------------- group-scoped snapshot

  /** The snapshot `estimateGroupRuptures` takes of a variable whose increment type is
      GROUP once its increment group has been marked changed. */
  function Snapshot(v: Variable, gs: seq<Group>): (r: Variable)
    requires VariableBound(v, |gs|)
    // only the snapshot moves, and the value is never touched
    ensures r == v.(incrementedValue := r.incrementedValue)
    // exactly the GROUP-incremented variables of changed groups snapshot their value
    ensures v.incrementType == Group && gs[v.incrementGroup].hasChanged ==> r.incrementedValue == v.value
    ensures !(v.incrementType == Group && gs[v.incrementGroup].hasChanged) ==> r == v
  {
    if v.incrementType == Group && gs[v.incrementGroup].hasChanged then v.(incrementedValue := v.value) else v
  }

  function SnapshotPass(vs: seq<Variable>, gs: seq<Group>): (r: seq<Variable>)
    requires VariablesBound(vs, |gs|)
    ensures |r| == |vs|
  {
    seq(|vs|, j requires 0 <= j < |vs| => Snapshot(vs[j], gs))
  }

  // ---------------------------------------------------------------- initializeVariables

  /** Whether the increment step of `initializeVariables(trigger)` snapshots `v`: always for
      increment type NONE, otherwise when the boundary reaches its increment type. */
  predicate IncrementApplies(v: Variable, trigger: ResetType, gs: seq<Group>)
    requires VariableBound(v, |gs|)
  {
    v.incrementType == NoReset ||
    Applies(trigger, v.incrementType, GroupChanged(gs, v.incrementType, v.incrementGroup))
  }

  /** Whether the initialize step of `initializeVariables(trigger)` resets `v` to its initial value. */
  predicate ResetApplies(v: Variable, trigger: ResetType, gs: seq<Group>)
    requires VariableBound(v, |gs|)
  {
    v.resetType != NoReset &&
    Applies(trigger, v.resetType, GroupChanged(gs, v.resetType, v.resetGroup))
  }

  /** The decisions of the two steps for a variable: a group boundary reaches it through
      its bound group's `hasChanged` flag, a report boundary through anything but NONE, and a
      NONE or unknown boundary resets nothing (only increment type NONE still snapshots). */
  lemma BoundaryDecisions(v: Variable, gs: seq<Group>)
    requires VariableBound(v, |gs|)
    ensures IncrementApplies(v, Group, gs) <==>
      v.incrementType == NoReset || (v.incrementType == Group && gs[v.incrementGroup].hasChanged)
    ensures ResetApplies(v, Group, gs) <==> v.resetType == Group && gs[v.resetGroup].hasChanged
    ensures IncrementApplies(v, Report, gs)
    ensures ResetApplies(v, Report, gs) <==> v.resetType != NoReset
    ensures forall t :: t == NoReset || t == Unknown ==>
      !ResetApplies(v, t, gs) && (IncrementApplies(v, t, gs) <==> v.incrementType == NoReset)
  {
  }

  /** `incrementVariable`: the snapshot of the epoch that has just ended. */
  function Incremented(v: Variable, trigger: ResetType, gs: seq<Group>): Variable
    requires VariableBound(v, |gs|)
  {
    if IncrementApplies(v, trigger, gs) then v.(incrementedValue := v.value) else v
  }

  /** `initializeVariable` for variable `i`, evaluated against the state `vs`. */
  function Initialized(ev: Evaluator, vs: seq<Variable>, i: nat, trigger: ResetType, gs: seq<Group>): Variable
    requires i < |vs| && VariableBound(vs[i], |gs|)
  {
    var v := vs[i];
    if v.resetType == NoReset then
      var newValue := ev.evaluate(v.expression, vs);
      v.(value := newValue, incrementedValue := newValue)
    else if ResetApplies(v, trigger, gs) then
      v.(value := ev.evaluate(v.initialValueExpression, vs), initialized := true, incrementedValue := None)
    else
      v
  }

  /** One iteration of `initializeVariables`: increment step, then initialize step. */
  function InitializeStep(ev: Evaluator, vs: seq<Variable>, i: nat, trigger: ResetType, gs: seq<Group>): (r: seq<Variable>)
    requires i < |vs| && VariableBound(vs[i], |gs|)
    ensures |r| == |vs| && forall j :: 0 <= j < |vs| && j != i ==> r[j] == vs[j]
    ensures InitializeOutcome(vs[i], r[i], trigger, gs)
    // the new value is evaluated after the snapshot of the increment step has been taken
    ensures var incremented := vs[i := Incremented(vs[i], trigger, gs)];
      (vs[i].resetType == NoReset ==> r[i].value == ev.evaluate(vs[i].expression, incremented)) &&
      (ResetApplies(vs[i], trigger, gs) ==> r[i].value == ev.evaluate(vs[i].initialValueExpression, incremented))
  {
    var incremented := vs[i := Incremented(vs[i], trigger, gs)];
    incremented[i := Initialized(ev, incremented, i, trigger, gs)]
  }

  /** What the two steps leave of one variable, as far as it does not depend on the evaluator. */
  predicate InitializeOutcome(before: Variable, after: Variable, trigger: ResetType, gs: seq<Group>)
    requires VariableBound(before, |gs|)
  {
    SameDeclaration(after, before) && after.estimatedValue == before.estimatedValue &&
    if before.resetType == NoReset then
      // re-evaluated from its expression and self-snapshotting, whatever the boundary
      after.incrementedValue == after.value && after.initialized == before.initialized
    else if ResetApplies(before, trigger, gs) then
      // reset: the snapshot the increment step took is overwritten with null
      after.initialized && after.incrementedValue == None
    else
      // not reset: value kept, snapshot taken exactly when the increment step applies
      after.value == before.value && after.initialized == before.initialized &&
      after.incrementedValue == if IncrementApplies(before, trigger, gs) then before.value else before.incrementedValue
  }

  /** Variable `i` after its increment step and its initialize step, starting from `vs`. */
  function InitializedAt(ev: Evaluator, vs: seq<Variable>, i: nat, trigger: ResetType, gs: seq<Group>): Variable
    requires i < |vs| && VariableBound(vs[i], |gs|)
  {
    Initialized(ev, vs[i := Incremented(vs[i], trigger, gs)], i, trigger, gs)
  }

  lemma InitializeStepIsUpdate(ev: Evaluator, vs: seq<Variable>, i: nat, trigger: ResetType, gs: seq<Group>)
    requires i < |vs| && VariableBound(vs[i], |gs|)
    ensures InitializeStep(ev, vs, i, trigger, gs) == vs[i := InitializedAt(ev, vs, i, trigger, gs)]
  {
  }

  /** The variables after the first `n` iterations of `initializeVariables(trigger)`; the
      variables from `n` on are untouched. */
  function InitializePass(ev: Evaluator, vs: seq<Variable>, gs: seq<Group>, trigger: ResetType, n: nat): (r: seq<Variable>)
    requires n <= |vs| && VariablesBound(vs, |gs|)
    ensures |r| == |vs|
    ensures forall j :: n <= j < |vs| ==> r[j] == vs[j]
  {
    if n == 0 then vs else
      var s := InitializePass(ev, vs, gs, trigger, n - 1);
      s[n - 1 := InitializedAt(ev, s, n - 1, trigger, gs)]
  }

  /** After `initializeVariables(trigger)`, every variable shows the outcome of its increment
      step followed by its initialize step. */
  lemma {:induction false} InitializePassEffect(ev: Evaluator, vs: seq<Variable>, gs: seq<Group>, trigger: ResetType, n: nat)
    requires n <= |vs| && VariablesBound(vs, |gs|)
    ensures forall j :: 0 <= j < n ==> InitializeOutcome(vs[j], InitializePass(ev, vs, gs, trigger, n)[j], trigger, gs)
  {
    if n > 0 {
      InitializePassEffect(ev, vs, gs, trigger, n - 1);
      var s := InitializePass(ev, vs, gs, trigger, n - 1);
      var r := InitializePass(ev, vs, gs, trigger, n);
      assert s[n - 1] == vs[n - 1];
      InitializeStepIsUpdate(ev, s, n - 1, trigger, gs);
      assert r == InitializeStep(ev, s, n - 1, trigger, gs);
      forall j | 0 <= j < n - 1
        ensures r[j] == s[j]
      {
      }
    }
  }

  /** After `n` iterations, variable `j < n` holds what iteration `j` gave it. */
  lemma {:induction false} InitializePassAt(ev: Evaluator, vs: seq<Variable>, gs: seq<Group>, trigger: ResetType, n: nat, j: nat)
    requires j < n <= |vs| && VariablesBound(vs, |gs|)
    ensures InitializePass(ev, vs, gs, trigger, n)[j] == InitializedAt(ev, InitializePass(ev, vs, gs, trigger, j), j, trigger, gs)
  {
    var s := InitializePass(ev, vs, gs, trigger, n - 1);
    assert InitializePass(ev, vs, gs, trigger, n) == s[n - 1 := InitializedAt(ev, s, n - 1, trigger, gs)];
    if j < n - 1 {
      InitializePassAt(ev, vs, gs, trigger, n - 1, j);
    }
  }

  /** After `j` iterations, the variables before `j` hold their final state and the others
      are untouched. */
  lemma InitializePassState(ev: Evaluator, vs: seq<Variable>, gs: seq<Group>, trigger: ResetType, j: nat)
    requires j <= |vs| && VariablesBound(vs, |gs|)
    ensures InitializePass(ev, vs, gs, trigger, j) == InitializePass(ev, vs, gs, trigger, |vs|)[..j] + vs[j..]
  {
    var r := InitializePass(ev, vs, gs, trigger, |vs|);
    var p := InitializePass(ev, vs, gs, trigger, j);
    forall k | 0 <= k < |vs|
      ensures p[k] == (r[..j] + vs[j..])[k]
    {
      if k < j {
        InitializePassAt(ev, vs, gs, trigger, |vs|, k);
        InitializePassAt(ev, vs, gs, trigger, j, k);
      }
    }
  }

  /** Each variable's final state is its two steps taken in the state where the variables
      before it already hold their final state and those after it are untouched. */
  lemma InitializePassFinal(ev: Evaluator, vs: seq<Variable>, gs: seq<Group>, trigger: ResetType, j: nat)
    requires j < |vs| && VariablesBound(vs, |gs|)
    ensures var r := InitializePass(ev, vs, gs, trigger, |vs|);
      r[j] == InitializedAt(ev, r[..j] + vs[j..], j, trigger, gs)
  {
    InitializePassState(ev, vs, gs, trigger, j);
    InitializePassAt(ev, vs, gs, trigger, |vs|, j);
  }

  /** The new value of each variable in `initializeVariables(trigger)`, evaluated in the state
      where the variables before it have gone through both steps, it has gone through its
      increment step and those after it are untouched: a variable with reset type NONE gets its
      expression's value, a reset variable its initial value expression's value. */
  lemma InitializePassValues(ev: Evaluator, vs: seq<Variable>, gs: seq<Group>, trigger: ResetType, j: nat)
    requires j < |vs| && VariablesBound(vs, |gs|)
    ensures var r := InitializePass(ev, vs, gs, trigger, |vs|);
      var state := r[..j] + [Incremented(vs[j], trigger, gs)] + vs[j + 1..];
      (vs[j].resetType == NoReset ==> r[j].value == ev.evaluate(vs[j].expression, state)) &&
      (ResetApplies(vs[j], trigger, gs) ==> r[j].value == ev.evaluate(vs[j].initialValueExpression, state))
  {
    var r := InitializePass(ev, vs, gs, trigger, |vs|);
    var p := r[..j] + vs[j..];
    var v := Incremented(vs[j], trigger, gs);
    InitializePassFinal(ev, vs, gs, trigger, j);
    assert p[j := v] == r[..j] + [v] + vs[j + 1..];
    assert v == vs[j].(incrementedValue := v.incrementedValue);
    assert ResetApplies(v, trigger, gs) == ResetApplies(vs[j], trigger, gs);
  }
}
