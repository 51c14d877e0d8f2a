// The reset/increment types shared by variables and element datasets, and the
// scope-containment decision that each `switch` of the calculator makes.
module Scopes {

  /** A reset or increment type, and also the boundary that fires a reset.
      `Unknown` stands for any code other than the five named ones. */
  datatype ResetType = Report | Page | Column | Group | NoReset | Unknown

  /** The three layout scopes that nest: report, page, column. */
  predicate IsLayoutScope(t: ResetType)
  {
    t == Report || t == Page || t == Column
  }

  /** Position in the nesting REPORT ⊇ PAGE ⊇ COLUMN. */
  function Level(t: ResetType): nat
    requires IsLayoutScope(t)
  {
    if t == Column then 1 else if t == Page then 2 else 3
  }

  /** Whether a boundary of type `trigger` reaches an entity whose reset (or increment)
      type is `scope`; `boundGroupChanged` is the `hasChanged` flag of the entity's bound
      group, consulted only for a GROUP boundary on a GROUP-scoped entity. */
  function Applies(trigger: ResetType, scope: ResetType, boundGroupChanged: bool): bool
  {
    match trigger
    case Report => true
    case Page => scope == Page || scope == Column
    case Column => scope == Column
    case Group => scope == Group && boundGroupChanged
    case NoReset => false
    case Unknown => false
  }

  /** The containment table: REPORT ⊇ PAGE ⊇ COLUMN, and a GROUP axis gated by the bound group. */
  lemma ContainmentTable(trigger: ResetType, scope: ResetType, boundGroupChanged: bool)
    // a report boundary reaches everything, whatever its scope
    ensures trigger == Report ==> Applies(trigger, scope, boundGroupChanged)
    // among the layout scopes, a boundary reaches exactly the scopes nested inside it
    ensures IsLayoutScope(trigger) && IsLayoutScope(scope) ==> (Applies(trigger, scope, boundGroupChanged) <==> Level(scope) <= Level(trigger))
    // page and column boundaries reach only layout scopes
    ensures (trigger == Page || trigger == Column) && Applies(trigger, scope, boundGroupChanged) ==> IsLayoutScope(scope)
    // a group boundary reaches only GROUP scopes whose bound group has changed
    ensures trigger == Group ==> (Applies(trigger, scope, boundGroupChanged) <==> scope == Group && boundGroupChanged)
    // a NONE or unknown boundary reaches nothing
    ensures trigger == NoReset || trigger == Unknown ==> !Applies(trigger, scope, boundGroupChanged)
  {
  }

  /** Containment is monotone along COLUMN ⊆ PAGE ⊆ REPORT. */
  lemma ContainmentMonotone(scope: ResetType, changed: bool)
    ensures Applies(Column, scope, changed) ==> Applies(Page, scope, changed)
    ensures Applies(Page, scope, changed) ==> Applies(Report, scope, changed)
    ensures !Applies(Column, Page, changed)
  {
  }
}
