// The calls the calculator makes on its element datasets, as a log in call order.
module DatasetCalls {
  import opened Scopes
  import opened Entities

  /** Whether `initializeVariables(trigger)` increments the dataset: never for increment
      type NONE (such datasets increment on every record instead). */
  predicate DatasetIncrementApplies(d: ElementDataset, trigger: ResetType, gs: seq<Group>)
    requires DatasetBound(d, |gs|)
  {
    d.incrementType != NoReset &&
    Applies(trigger, d.incrementType, GroupChanged(gs, d.incrementType, d.incrementGroup))
  }

  /** Whether `initializeVariables(trigger)` initializes the dataset; there is no NONE guard. */
  predicate DatasetResetApplies(d: ElementDataset, trigger: ResetType, gs: seq<Group>)
    requires DatasetBound(d, |gs|)
  {
    Applies(trigger, d.resetType, GroupChanged(gs, d.resetType, d.resetGroup))
  }

  /** The decisions of the two steps for a dataset: a group boundary reaches it through its
      bound group's `hasChanged` flag; a report boundary increments every dataset but those of
      increment type NONE and initializes every dataset. */
  lemma DatasetBoundaryDecisions(d: ElementDataset, gs: seq<Group>)
    requires DatasetBound(d, |gs|)
    ensures DatasetIncrementApplies(d, Group, gs) <==> d.incrementType == Group && gs[d.incrementGroup].hasChanged
    ensures DatasetResetApplies(d, Group, gs) <==> d.resetType == Group && gs[d.resetGroup].hasChanged
    ensures DatasetIncrementApplies(d, Report, gs) <==> d.incrementType != NoReset
    ensures DatasetResetApplies(d, Report, gs)
  {
  }

  /** The calls of `calculateVariables` on dataset `i`, made when the variables are `vs`. */
  function CalculateDatasetCalls(d: ElementDataset, i: nat, vs: seq<Variable>): seq<DatasetCall>
  {
    [EvaluateCall(i, vs)] + (if d.incrementType == NoReset then [IncrementCall(i)] else [])
  }

  /** The calls of `calculateVariables` on the first `n` datasets, made when the variables
      are `vs`. */
  function CalculateCalls(ds: seq<ElementDataset>, n: nat, vs: seq<Variable>): seq<DatasetCall>
    requires n <= |ds|
  {
    if n == 0 then [] else CalculateCalls(ds, n - 1, vs) + CalculateDatasetCalls(ds[n - 1], n - 1, vs)
  }

  /** The calls of `initializeVariables(trigger)` on dataset `i`: increment, then initialize. */
  function InitializeDatasetCalls(d: ElementDataset, i: nat, gs: seq<Group>, trigger: ResetType): seq<DatasetCall>
    requires DatasetBound(d, |gs|)
  {
    BoundaryCalls(i, DatasetIncrementApplies(d, trigger, gs), DatasetResetApplies(d, trigger, gs))
  }

  /** An increment call if `increment`, then an initialize call if `initialize`. */
  function BoundaryCalls(i: nat, increment: bool, initialize: bool): seq<DatasetCall>
  {
    (if increment then [IncrementCall(i)] else []) + (if initialize then [InitializeCall(i)] else [])
  }

  /** The calls of `initializeVariables(trigger)` on the first `n` datasets. */
  function InitializeCalls(ds: seq<ElementDataset>, gs: seq<Group>, trigger: ResetType, n: nat): seq<DatasetCall>
    requires n <= |ds| && DatasetsBound(ds, |gs|)
  {
    if n == 0 then [] else InitializeCalls(ds, gs, trigger, n - 1) + InitializeDatasetCalls(ds[n - 1], n - 1, gs, trigger)
  }

  /** Order of the calls made on one dataset within one iteration. */
  function Rank(c: DatasetCall): nat
  {
    match c
    case EvaluateCall(_, _) => 0
    case IncrementCall(_) => 1
    case InitializeCall(_) => 2
  }

  /** `a` comes before `b`: an earlier dataset, or the same one at an earlier step. */
  predicate Precedes(a: DatasetCall, b: DatasetCall)
  {
    a.dataset < b.dataset || (a.dataset == b.dataset && Rank(a) < Rank(b))
  }

  /** Datasets are visited in index order, each at most once per kind of call,
      evaluate before increment before initialize. */
  predicate Ordered(cs: seq<DatasetCall>)
  {
    forall p, q :: 0 <= p < q < |cs| ==> Precedes(cs[p], cs[q])
  }

  /** Ordered calls never repeat. */
  lemma OrderedDistinct(cs: seq<DatasetCall>)
    requires Ordered(cs)
    ensures forall p, q :: 0 <= p < q < |cs| ==> cs[p] != cs[q]
  {
  }

  /** Two ordered logs, every call of the first before every call of the second, make an
      ordered log. */
  lemma OrderedAppend(a: seq<DatasetCall>, b: seq<DatasetCall>, n: nat)
    requires Ordered(a) && Ordered(b)
    requires forall c :: c in a ==> c.dataset < n
    requires forall c :: c in b ==> c.dataset == n
    ensures Ordered(a + b)
  {
    forall p, q | 0 <= p < q < |a + b|
      ensures Precedes((a + b)[p], (a + b)[q])
    {
      if q < |a| {
        assert (a + b)[p] == a[p] && (a + b)[q] == a[q];
      } else if p >= |a| {
        assert (a + b)[p] == b[p - |a|] && (a + b)[q] == b[q - |a|];
      } else {
        assert (a + b)[p] == a[p] && a[p] in a;
        assert (a + b)[q] == b[q - |a|] && b[q - |a|] in b;
      }
    }
  }

  /** The calls on dataset `i` in one `calculateVariables` iteration. */
  lemma DatasetCallsFacts(d: ElementDataset, i: nat, vs: seq<Variable>)
    ensures Ordered(CalculateDatasetCalls(d, i, vs))
    ensures forall c :: c in CalculateDatasetCalls(d, i, vs) ==>
      c.dataset == i && !c.InitializeCall? && (c.EvaluateCall? ==> c.variables == vs)
    ensures EvaluateCall(i, vs) in CalculateDatasetCalls(d, i, vs)
    ensures forall j: nat :: IncrementCall(j) in CalculateDatasetCalls(d, i, vs) <==> j == i && d.incrementType == NoReset
  {
  }

  /** The calls on dataset `i` in one `initializeVariables` iteration. */
  lemma BoundaryCallsFacts(i: nat, increment: bool, initialize: bool)
    ensures Ordered(BoundaryCalls(i, increment, initialize))
    ensures forall c :: c in BoundaryCalls(i, increment, initialize) ==> c.dataset == i && !c.EvaluateCall?
    ensures forall j: nat :: IncrementCall(j) in BoundaryCalls(i, increment, initialize) <==> j == i && increment
    ensures forall j: nat :: InitializeCall(j) in BoundaryCalls(i, increment, initialize) <==> j == i && initialize
  {
  }

  /** `calculateVariables` evaluates every dataset, in order, against the same variables
      `vs`, and increments exactly those whose increment type is NONE; it initializes none. */
  lemma {:induction false} CalculateCallsSpec(ds: seq<ElementDataset>, n: nat, vs: seq<Variable>)
    requires n <= |ds|
    ensures Ordered(CalculateCalls(ds, n, vs))
    ensures forall c :: c in CalculateCalls(ds, n, vs) ==>
      c.dataset < n && !c.InitializeCall? && (c.EvaluateCall? ==> c.variables == vs)
    ensures forall j :: 0 <= j < n ==> EvaluateCall(j, vs) in CalculateCalls(ds, n, vs)
    ensures forall j: nat :: IncrementCall(j) in CalculateCalls(ds, n, vs) <==> j < n && ds[j].incrementType == NoReset
  {
    if n > 0 {
      var a, b := CalculateCalls(ds, n - 1, vs), CalculateDatasetCalls(ds[n - 1], n - 1, vs);
      CalculateCallsSpec(ds, n - 1, vs);
      DatasetCallsFacts(ds[n - 1], n - 1, vs);
      OrderedAppend(a, b, n - 1);
    }
  }

  /** `initializeVariables(trigger)` visits the datasets in order, and increments a dataset
      before it initializes it; it evaluates none. */
  lemma {:induction false} InitializeCallsOrdered(ds: seq<ElementDataset>, gs: seq<Group>, trigger: ResetType, n: nat)
    requires n <= |ds| && DatasetsBound(ds, |gs|)
    ensures Ordered(InitializeCalls(ds, gs, trigger, n))
    ensures forall c :: c in InitializeCalls(ds, gs, trigger, n) ==> c.dataset < n && !c.EvaluateCall?
  {
    if n > 0 {
      var increment, initialize := DatasetIncrementApplies(ds[n - 1], trigger, gs), DatasetResetApplies(ds[n - 1], trigger, gs);
      var a := InitializeCalls(ds, gs, trigger, n - 1);
      var b := BoundaryCalls(n - 1, increment, initialize);
      assert InitializeCalls(ds, gs, trigger, n) == a + b;
      InitializeCallsOrdered(ds, gs, trigger, n - 1);
      BoundaryCallsFacts(n - 1, increment, initialize);
      OrderedAppend(a, b, n - 1);
      forall c: DatasetCall | c in a + b
        ensures c.dataset < n && !c.EvaluateCall?
      {
        assert c in a || c in b;
      }
    }
  }

  /** The log of a boundary pass over the first `n` datasets, given for each dataset whether
      it is incremented and whether it is initialized. */
  function BoundaryLog(increments: seq<bool>, initializes: seq<bool>, n: nat): seq<DatasetCall>
    requires n <= |increments| == |initializes|
  {
    if n == 0 then [] else
      BoundaryLog(increments, initializes, n - 1) + BoundaryCalls(n - 1, increments[n - 1], initializes[n - 1])
  }

  lemma {:induction false} BoundaryLogAt(increments: seq<bool>, initializes: seq<bool>, n: nat, j: nat)
    requires n <= |increments| == |initializes|
    ensures IncrementCall(j) in BoundaryLog(increments, initializes, n) <==> j < n && increments[j]
    ensures InitializeCall(j) in BoundaryLog(increments, initializes, n) <==> j < n && initializes[j]
  {
    if n > 0 {
      var a := BoundaryLog(increments, initializes, n - 1);
      var b := BoundaryCalls(n - 1, increments[n - 1], initializes[n - 1]);
      BoundaryLogAt(increments, initializes, n - 1, j);
      assert IncrementCall(j) in b <==> j == n - 1 && increments[n - 1];
      assert InitializeCall(j) in b <==> j == n - 1 && initializes[n - 1];
      assert IncrementCall(j) in a + b <==> IncrementCall(j) in a || IncrementCall(j) in b;
      assert InitializeCall(j) in a + b <==> InitializeCall(j) in a || InitializeCall(j) in b;
    }
  }

  /** Whether `initializeVariables(trigger)` increments, respectively initializes, each dataset. */
  function IncrementDecisions(ds: seq<ElementDataset>, gs: seq<Group>, trigger: ResetType): seq<bool>
    requires DatasetsBound(ds, |gs|)
  {
    seq(|ds|, k requires 0 <= k < |ds| => DatasetIncrementApplies(ds[k], trigger, gs))
  }

  function ResetDecisions(ds: seq<ElementDataset>, gs: seq<Group>, trigger: ResetType): seq<bool>
    requires DatasetsBound(ds, |gs|)
  {
    seq(|ds|, k requires 0 <= k < |ds| => DatasetResetApplies(ds[k], trigger, gs))
  }

  lemma {:induction false} InitializeCallsLog(ds: seq<ElementDataset>, gs: seq<Group>, trigger: ResetType, n: nat)
    requires n <= |ds| && DatasetsBound(ds, |gs|)
    ensures InitializeCalls(ds, gs, trigger, n)
         == BoundaryLog(IncrementDecisions(ds, gs, trigger), ResetDecisions(ds, gs, trigger), n)
  {
    if n > 0 {
      InitializeCallsLog(ds, gs, trigger, n - 1);
    }
  }

  /** `initializeVariables(trigger)` increments dataset `j` exactly when its increment type
      is not NONE and the boundary reaches it. */
  lemma InitializeCallsIncrements(ds: seq<ElementDataset>, gs: seq<Group>, trigger: ResetType, n: nat, j: nat)
    requires n <= |ds| && DatasetsBound(ds, |gs|)
    ensures IncrementCall(j) in InitializeCalls(ds, gs, trigger, n) <==>
      j < n && DatasetIncrementApplies(ds[j], trigger, gs)
  {
    InitializeCallsLog(ds, gs, trigger, n);
    BoundaryLogAt(IncrementDecisions(ds, gs, trigger), ResetDecisions(ds, gs, trigger), n, j);
  }

  /** `initializeVariables(trigger)` initializes dataset `j` exactly when the boundary reaches
      its reset type, with no exception for NONE. */
  lemma InitializeCallsInitializes(ds: seq<ElementDataset>, gs: seq<Group>, trigger: ResetType, n: nat, j: nat)
    requires n <= |ds| && DatasetsBound(ds, |gs|)
    ensures InitializeCall(j) in InitializeCalls(ds, gs, trigger, n) <==>
      j < n && DatasetResetApplies(ds[j], trigger, gs)
  {
    InitializeCallsLog(ds, gs, trigger, n);
    BoundaryLogAt(IncrementDecisions(ds, gs, trigger), ResetDecisions(ds, gs, trigger), n, j);
  }

  /** A report boundary initializes every dataset, NONE reset type included. */
  lemma ReportInitializesEveryDataset(ds: seq<ElementDataset>, gs: seq<Group>)
    requires DatasetsBound(ds, |gs|)
    ensures forall j :: 0 <= j < |ds| ==> InitializeCall(j) in InitializeCalls(ds, gs, Report, |ds|)
  {
    forall j | 0 <= j < |ds|
      ensures InitializeCall(j) in InitializeCalls(ds, gs, Report, |ds|)
    {
      InitializeCallsInitializes(ds, gs, Report, |ds|, j);
    }
  }

  /** Within one pass, each dataset gets at most one call of each kind. */
  lemma PassCallsDistinct(ds: seq<ElementDataset>, gs: seq<Group>, trigger: ResetType, vs: seq<Variable>)
    requires DatasetsBound(ds, |gs|)
    ensures var cs := CalculateCalls(ds, |ds|, vs);
      forall p, q :: 0 <= p < q < |cs| ==> cs[p] != cs[q]
    ensures var cs := InitializeCalls(ds, gs, trigger, |ds|);
      forall p, q :: 0 <= p < q < |cs| ==> cs[p] != cs[q]
  {
    CalculateCallsSpec(ds, |ds|, vs);
    OrderedDistinct(CalculateCalls(ds, |ds|, vs));
    InitializeCallsOrdered(ds, gs, trigger, |ds|);
    OrderedDistinct(InitializeCalls(ds, gs, trigger, |ds|));
  }
}
