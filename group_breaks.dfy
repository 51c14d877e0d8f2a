// Group break detection: the change flags of the groups, the pre-pass that marks them,
// and the outer-to-inner cascade that decides `hasChanged` and `topLevelChange`.
module GroupBreaks {
  import opened Values
  import opened Entities

  /** For each group, whether its break expression differs between old and estimated
      evaluation against the variables `vs`. */
  function ChangeFlags(ev: Evaluator, gs: seq<Group>, vs: seq<Variable>): (d: seq<bool>)
    ensures |d| == |gs|
    ensures forall j :: 0 <= j < |gs| ==>
      (d[j] <==> ev.evaluateOld(gs[j].expression) != ev.evaluateEstimated(gs[j].expression, vs))
  {
    seq(|gs|, j requires 0 <= j < |gs| =>
      Differs(ev.evaluateOld(gs[j].expression), ev.evaluateEstimated(gs[j].expression, vs)))
  }

  /** Two group sequences differ at most in the flags the calculator sets. */
  predicate SameGroups(gs: seq<Group>, hs: seq<Group>)
  {
    |gs| == |hs| &&
    forall j :: 0 <= j < |gs| ==> gs[j].(hasChanged := hs[j].hasChanged, topLevelChange := hs[j].topLevelChange) == hs[j]
  }

  /** The flags of the groups play no part in break detection. */
  lemma BreaksIgnoreFlags(ev: Evaluator, gs: seq<Group>, hs: seq<Group>, vs: seq<Variable>, d: seq<bool>)
    requires SameGroups(gs, hs) && |d| == |gs|
    ensures ChangeFlags(ev, gs, vs) == ChangeFlags(ev, hs, vs)
    ensures Cascade(gs, d) == Cascade(hs, d)
  {
    assert forall j :: 0 <= j < |gs| ==> gs[j].expression == hs[j].expression;
  }

  /** The pre-pass: every group's `hasChanged` set from its own change flag. */
  function MarkChanges(gs: seq<Group>, d: seq<bool>): (r: seq<Group>)
    requires |d| == |gs|
    ensures SameGroups(gs, r)
  {
    seq(|gs|, j requires 0 <= j < |gs| => gs[j].(hasChanged := d[j]))
  }

  /** The index of the first (outermost) group whose flag is set, or `|d|` if none is. */
  function FirstChange(d: seq<bool>): (k: nat)
    ensures k <= |d|
    ensures forall j :: 0 <= j < k ==> !d[j]
    ensures k < |d| ==> d[k]
  {
    if |d| == 0 then 0 else if d[0] then 0 else 1 + FirstChange(d[1..])
  }

  /** The cascade pass: groups before the first change are unchanged, that group is the
      top-level change and every group nested inside it has changed too. */
  function Cascade(gs: seq<Group>, d: seq<bool>): (r: seq<Group>)
    requires |d| == |gs|
    ensures |r| == |gs|
    // only the two flags are written
    ensures forall j :: 0 <= j < |gs| ==>
      r[j] == gs[j].(hasChanged := r[j].hasChanged, topLevelChange := r[j].topLevelChange)
    // once a group has changed, every group nested inside it has changed
    ensures forall i, j :: 0 <= i <= j < |gs| && r[i].hasChanged ==> r[j].hasChanged
    // the top-level change is the outermost changed group
    ensures forall j :: 0 <= j < |gs| ==>
      (r[j].topLevelChange <==> r[j].hasChanged && (j == 0 || !r[j - 1].hasChanged))
  {
    var k := FirstChange(d);
    seq(|gs|, j requires 0 <= j < |gs| => gs[j].(hasChanged := j >= k, topLevelChange := j == k))
  }

  /** Cascade rule: a group has changed exactly when it or an enclosing group differs, and it
      is the top-level change exactly when it differs and no enclosing group does. */
  lemma CascadeLaw(gs: seq<Group>, d: seq<bool>, j: nat)
    requires |d| == |gs| && j < |gs|
    ensures Cascade(gs, d)[j].hasChanged <==> exists i :: 0 <= i <= j && d[i]
    ensures Cascade(gs, d)[j].topLevelChange <==> d[j] && forall i :: 0 <= i < j ==> !d[i]
    ensures Cascade(gs, d)[j].expression == gs[j].expression
  {
    var k := FirstChange(d);
    if j >= k {
      assert 0 <= k <= j && d[k];
    }
  }

  /** The number of groups flagged as a top-level change. */
  function TopLevelCount(gs: seq<Group>): nat
  {
    if gs == [] then 0 else (if gs[0].topLevelChange then 1 else 0) + TopLevelCount(gs[1..])
  }

  lemma {:induction false} TopLevelCountSingle(gs: seq<Group>, k: int)
    requires forall j :: 0 <= j < |gs| ==> (gs[j].topLevelChange <==> j == k)
    ensures TopLevelCount(gs) == if 0 <= k < |gs| then 1 else 0
  {
    if gs != [] {
      TopLevelCountSingle(gs[1..], k - 1);
    }
  }

  /** At most one group is a top-level change, and exactly one when any group differs. */
  lemma AtMostOneTopLevelChange(gs: seq<Group>, d: seq<bool>)
    requires |d| == |gs|
    ensures TopLevelCount(Cascade(gs, d)) == if exists j :: 0 <= j < |d| && d[j] then 1 else 0
  {
    var k := FirstChange(d);
    TopLevelCountSingle(Cascade(gs, d), k);
    if k < |d| {
      assert d[k];
    }
  }
}
