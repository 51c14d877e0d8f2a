# JRCalculator: variable calculation and group break estimation of the JasperReports fill engine

This project models `JRCalculator`, the part of the JasperReports report filler that keeps the
report variables up to date while records are filled, estimates group breaks ahead of time,
and resets variables and element datasets at layout boundaries (report, page, column, group).

The calculator owns three arrays of mutable entities, and the model keeps them as arrays:

- **variables** (`Entities.Variable`): a declaration (expression, initial value expression,
  reset type and reset group, increment type and increment group) and a mutable state
  (value, incremented value, estimated value, `initialized` flag);
- **groups** (`Entities.Group`), outermost first: a break expression and the flags
  `hasChanged` and `topLevelChange`;
- **element datasets** (`Entities.ElementDataset`): chart and crosstab sub-aggregates whose
  own state is external. Only their reset and increment types and groups are modelled, and the
  calls the calculator makes on them (`evaluate`, `increment`, `initialize`) go into a log,
  the `calls` field. An `evaluate` call hands the dataset the calculator itself, through which
  the dataset evaluates its own expressions against the variables; its log entry therefore
  records the variables as they stand at the call.

`Fill.Calculator` is the class. Each Java setter call (`setValue`, `setIncrementedValue`,
`setEstimatedValue`, `setInitialized`, `setHasChanged`, `setTopLevelChange`) becomes an update
of one array element. Each public operation is a method with loops. Its postcondition ties the
new state to a specification function of the old state. Each pass function is written
iteration by iteration: `CalculatePass(ev, inc, vs, n)` is the state after the first `n`
iterations of the loop, and the whole pass is `n == |vs|`.

- `calculateVariables` is specified by `VariablePasses.CalculatePass` and `DatasetCalls.CalculateCalls`;
- `estimateVariables` by `VariablePasses.EstimatePass`;
- `estimateGroupRuptures` by `ChangeFlags`, `MarkChanges`, `SnapshotPass`, `EstimatePass` and `Cascade`;
- `initializeVariables` by `VariablePasses.InitializePass` and `DatasetCalls.InitializeCalls`.

The lemmas beside these functions state what JasperReports relies on: the cascade shape, at
most one top-level change, what each pass writes and leaves alone, increment before
initialize, and the scope-containment table.

All four `switch` blocks of the source share one decision function, `Scopes.Applies`. The
blocks are `incrementVariable`, `initializeVariable`, `incrementDataset` and
`initializeDataset`. Each caller adds its own NONE handling:

- a variable whose increment type is NONE always snapshots;
- a variable whose reset type is NONE is re-evaluated;
- a dataset whose increment type is NONE is never incremented at a boundary;
- a dataset's reset type has no NONE guard, so a report boundary initializes every dataset.

The collaborators are parameters of the calculator:

- **Expression evaluator** (`Entities.Evaluator`): three total functions. Current evaluation
  and estimated evaluation receive the variables array, so an estimated group expression can
  read the variables' estimated values; this is why the re-estimation inside
  `estimateGroupRuptures` matters. Old evaluation reads the previous record and the variables' old
  values, which the calculator never writes, so it takes the expression alone.
- **Incrementer** (`Entities.Incrementer`): one total function of the variable, the
  expression value, the value provider (current or estimated) and the variables array.

Java `null` is `Values.None`. `Object.equals` is structural equality on `Values.Value`.

Structure: the dataset loops of `calculateVariables` and `initializeVariables` are the
separate methods `EvaluateDatasets` and `InitializeDatasets`. The four steps of
`estimateGroupRuptures` are the methods `MarkGroupChanges`, `SnapshotGroupIncrements`,
`EstimateVariables` and `CascadeGroupChanges`, called in the source's order. The loop bodies
are those of the source.

## Behaviour worth knowing

- `calculateVariables` snapshots a variable's value when its *increment* type is NONE
  (JRCalculator.java:132), not its reset type.
- An element dataset has two types and two groups, one pair for increment and one for reset
  (JRCalculator.java:353, :481), not a single scope.
- When the initialize step of `initializeVariables` resets a variable, it sets the
  incremented value to null (JRCalculator.java:451). This overwrites the snapshot the
  increment step has just taken, so after a reset the incremented value is null, not the
  value from before the boundary. The snapshot survives only when the increment step
  applies and the reset does not (`VariablePasses.InitializeOutcome`).
- Estimating twice in a row is not idempotent in general. A variable whose estimated
  expression reads a *later* variable's estimate gets a different estimate on the second
  pass (`VariablePasses.EstimateNotIdempotentInGeneral`). Idempotence holds when estimates
  are read only from earlier variables (`VariablePasses.EstimateIdempotent`).

## Model

| member | source | states |
|---|---|---|
| `Values.Differs` | src/net/sf/jasperreports/engine/fill/JRCalculator.java:196-198 | the break test is true exactly when old and estimated values are unequal, null included; two nulls are unchanged |
| `Scopes.ContainmentTable` | src/net/sf/jasperreports/engine/fill/JRCalculator.java:293-327 | a report boundary reaches every scope; among report, page and column, a boundary reaches exactly the scopes nested in it; page and column boundaries reach only those scopes; a group boundary reaches exactly GROUP scopes whose bound group has changed; NONE and unknown boundaries reach nothing |
| `Scopes.ContainmentMonotone` | src/net/sf/jasperreports/engine/fill/JRCalculator.java:409-443 | whatever a column boundary resets, a page boundary resets too, and whatever a page boundary resets, a report boundary resets too; a column boundary never resets a PAGE scope |
| `Entities.EvaluateAs` | src/net/sf/jasperreports/engine/fill/JRCalculator.java:516-544 | old mode evaluates old, estimated mode evaluates estimated, and the default mode and every unrecognised mode evaluate current |
| `VariablePasses.CalculatePassEffect` | src/net/sf/jasperreports/engine/fill/JRCalculator.java:122-137 | after the per-record pass, every variable keeps its declaration and estimate and is not initialized; a variable with increment type NONE has its incremented value equal to its new value; the others keep their incremented value |
| `VariablePasses.CalculatePassValues` | src/net/sf/jasperreports/engine/fill/JRCalculator.java:126-129 | each variable's new value is its incrementer applied to it and to the current value of its expression, both read in the state where the variables before it already hold their new values and it and those after it still hold their old ones |
| `VariablePasses.EstimateWritesOnlyEstimates` | src/net/sf/jasperreports/engine/fill/JRCalculator.java:160-170 | estimation writes only estimated values; value, incremented value, the `initialized` flag and the declaration of every variable stay the same |
| `VariablePasses.EstimatePassValues` | src/net/sf/jasperreports/engine/fill/JRCalculator.java:164-167 | each variable's new estimate is its incrementer, reading estimated values, applied to it and to the estimated value of its expression, both read in the state where the variables before it already hold their new estimates and it and those after it still hold their old ones |
| `VariablePasses.EstimateIdempotent` | src/net/sf/jasperreports/engine/fill/JRCalculator.java:160-170 | when variables read only earlier variables' estimates, a second estimation pass right after a first changes nothing |
| `VariablePasses.EstimateNotIdempotentInGeneral` | src/net/sf/jasperreports/engine/fill/JRCalculator.java:162-167 | a variable that reads a later variable's estimate gets a different estimate on a second pass |
| `VariablePasses.Snapshot` | src/net/sf/jasperreports/engine/fill/JRCalculator.java:216-222 | only the incremented value may change, never the value; it becomes the value exactly for GROUP-incremented variables whose group is marked changed; every other variable is unchanged |
| `VariablePasses.InitializeStep` | src/net/sf/jasperreports/engine/fill/JRCalculator.java:267-271 | one boundary iteration changes only its own variable; a variable with reset type NONE is re-evaluated from its expression and its incremented value equals its value; a reset variable is initialized with a null incremented value; a variable that is not reset keeps its value and takes its snapshot exactly when its increment step applies; the new value is evaluated after the snapshot |
| `VariablePasses.InitializePassEffect` | src/net/sf/jasperreports/engine/fill/JRCalculator.java:265-272 | after the boundary pass, every variable shows the outcome of its increment step followed by its initialize step |
| `VariablePasses.InitializePassValues` | src/net/sf/jasperreports/engine/fill/JRCalculator.java:445-460 | a variable with reset type NONE gets the current value of its expression and a reset variable the value of its initial value expression, both read in the state where the variables before it are done, it has taken its increment step and those after it are untouched |
| `VariablePasses.BoundaryDecisions` | src/net/sf/jasperreports/engine/fill/JRCalculator.java:288-461 | for a variable, a group boundary snapshots exactly when the increment type is NONE or GROUP with the increment group changed, and resets exactly when the reset type is GROUP with the reset group changed; a report boundary always snapshots and resets every reset type but NONE; a NONE or unknown boundary resets nothing and snapshots only increment type NONE |
| `GroupBreaks.ChangeFlags` | src/net/sf/jasperreports/engine/fill/JRCalculator.java:193-198 | a group's flag is set exactly when the old and estimated values of its break expression differ |
| `GroupBreaks.FirstChange` | src/net/sf/jasperreports/engine/fill/JRCalculator.java:238-251 | the index found is the first set flag, or the number of groups when none is set |
| `GroupBreaks.Cascade` | src/net/sf/jasperreports/engine/fill/JRCalculator.java:231-255 | the cascade pass writes only the two flags; once a group has changed, every group nested in it has changed; the top-level change is the outermost changed group |
| `GroupBreaks.CascadeLaw` | src/net/sf/jasperreports/engine/fill/JRCalculator.java:231-255 | a group has changed exactly when it or an enclosing group differs; it is the top-level change exactly when it differs and no enclosing group does; flags from the pre-pass play no part |
| `GroupBreaks.AtMostOneTopLevelChange` | src/net/sf/jasperreports/engine/fill/JRCalculator.java:236-254 | exactly one group is a top-level change when some group differs, and none otherwise |
| `DatasetCalls.CalculateCallsSpec` | src/net/sf/jasperreports/engine/fill/JRCalculator.java:139-151 | every dataset is evaluated, in index order, and every evaluate call reads the same variables; a dataset is incremented exactly when its increment type is NONE; no dataset is initialized |
| `DatasetCalls.InitializeCallsOrdered` | src/net/sf/jasperreports/engine/fill/JRCalculator.java:274-281 | datasets are visited in index order; each is incremented before it is initialized; none is evaluated |
| `DatasetCalls.InitializeCallsIncrements` | src/net/sf/jasperreports/engine/fill/JRCalculator.java:351-397 | a dataset is incremented exactly when its increment type is not NONE and the boundary reaches it |
| `DatasetCalls.InitializeCallsInitializes` | src/net/sf/jasperreports/engine/fill/JRCalculator.java:467-510 | a dataset is initialized exactly when the boundary reaches its reset type, with no NONE guard |
| `DatasetCalls.ReportInitializesEveryDataset` | src/net/sf/jasperreports/engine/fill/JRCalculator.java:470-475 | a report boundary initializes every dataset |
| `DatasetCalls.DatasetBoundaryDecisions` | src/net/sf/jasperreports/engine/fill/JRCalculator.java:351-510 | for a dataset, a group boundary increments (initializes) exactly when the increment (reset) type is GROUP and the bound group has changed; a report boundary increments every dataset except increment type NONE and initializes every dataset |
| `DatasetCalls.PassCallsDistinct` | src/net/sf/jasperreports/engine/fill/JRCalculator.java:139-281 | within one calculate pass and within one boundary pass, no call is made twice on the same dataset |
| `Fill.Calculator.constructor` | src/net/sf/jasperreports/engine/fill/JRCalculator.java:82-96 | the calculator works on the dataset's own variables, groups and element datasets arrays, and starts with no dataset calls |
| `Fill.Calculator.CalculateVariables` | src/net/sf/jasperreports/engine/fill/JRCalculator.java:120-152 | the variables become the per-record pass of their old state, and the dataset calls of that pass are appended to the log, every evaluate call reading the variables as the whole variable pass left them |
| `Fill.Calculator.EvaluateDatasets` | src/net/sf/jasperreports/engine/fill/JRCalculator.java:139-151 | the log grows by the calculate-time calls on every dataset, in order, each evaluate call reading the variables as they stand |
| `Fill.Calculator.EstimateVariables` | src/net/sf/jasperreports/engine/fill/JRCalculator.java:158-171 | the variables become the estimation pass of their old state; groups and the dataset log are not touched |
| `Fill.Calculator.EstimateGroupRuptures` | src/net/sf/jasperreports/engine/fill/JRCalculator.java:182-257 | with no groups nothing changes. Otherwise the variables are re-estimated after the group snapshot of the pre-pass marks. The groups are the cascade of the change flags under the new estimates: hasChanged from the first differing group on, topLevelChange at that group only |
| `Fill.Calculator.MarkGroupChanges` | src/net/sf/jasperreports/engine/fill/JRCalculator.java:189-207 | every group's hasChanged becomes its own change flag, innermost first |
| `Fill.Calculator.SnapshotGroupIncrements` | src/net/sf/jasperreports/engine/fill/JRCalculator.java:211-225 | every variable becomes its group snapshot under the marked groups |
| `Fill.Calculator.CascadeGroupChanges` | src/net/sf/jasperreports/engine/fill/JRCalculator.java:231-255 | the groups become the cascade of their change flags; the running flag holds exactly past the first differing group |
| `Fill.Calculator.InitializeVariables` | src/net/sf/jasperreports/engine/fill/JRCalculator.java:263-282 | the variables become the boundary pass of their old state, and the boundary's dataset calls are appended to the log |
| `Fill.Calculator.InitializeDatasets` | src/net/sf/jasperreports/engine/fill/JRCalculator.java:274-281 | the log grows by the increment and initialize calls of every dataset, in order |
| `Fill.Calculator.IncrementVariable` | src/net/sf/jasperreports/engine/fill/JRCalculator.java:288-345 | only the one variable changes, to its increment step |
| `Fill.Calculator.InitializeVariable` | src/net/sf/jasperreports/engine/fill/JRCalculator.java:403-461 | only the one variable changes, to its initialize step evaluated in the current state |
| `Fill.Calculator.IncrementDataset` | src/net/sf/jasperreports/engine/fill/JRCalculator.java:351-397 | an increment call is logged exactly when the dataset's increment type is not NONE and the boundary reaches it |
| `Fill.Calculator.InitializeDataset` | src/net/sf/jasperreports/engine/fill/JRCalculator.java:467-510 | an initialize call is logged exactly when the boundary reaches the dataset's reset type |

## Left out

- The expression evaluator's own work (`evaluate`, `evaluateOld`, `evaluateEstimated`, JRCalculator.java:550-571) is a call into `JREvaluator`. It is a parameter here, as three total functions.
- The incrementers (sum, count, average and the rest) live in other classes and often use `BigDecimal` or floating point. They are one uninterpreted function parameter. The choice of incrementer per variable is part of that function's input (the variable).
- `init` (JRCalculator.java:82-96) also wires the parameter, field and variable maps into the evaluator and reads `whenResourceMissingType`; only the three arrays are kept. `getPageNumber` and `getColumnNumber` (:102-114) return map lookups and are not modelled.
- Evaluation failures (`JRException`, `JRExpressionEvalException`) and the partial updates they leave behind are not modelled: the evaluator is total.
- The internal state of the element datasets (`JRFillElementDataset`) is external; only the calls made on them are recorded.
- A `null` variables, groups or datasets array is modelled as an empty array, which the source treats the same way.
- The numeric codes of the reset types and evaluation modes are defined in `JRVariable` and `JRExpression`, which are not part of this model. Any code other than the named ones is `Unknown` or `OtherEvaluation`, which the source's `default:` branches handle.
- Aliasing is not modelled: each variable, group and element dataset is a value inside its array. Other references to them, such as the variables map the evaluator reads, are only visible through the variables array handed to the evaluator.
- The cascade pass skips the evaluations of groups after the first change, as the source does. Evaluation has no side effects in the model, so the saving is not observable.
- VariablePasses.EstimateIdempotent: idempotence of estimation is proved only when estimates are read from earlier variables; in general it fails (`VariablePasses.EstimateNotIdempotentInGeneral`).
- Old evaluation is modelled as depending on the expression alone. In the source it reads the previous record and the variables' old values. The calculator never writes those, so the model leaves them out of its state.
- Moving from one record to the next belongs to the caller (the filler loads the next record into the parameters and fields the evaluator reads). The evaluator is a fixed parameter of a `Calculator`, so a stream of records over several `CalculateVariables` calls is not expressed; each call models one record.
