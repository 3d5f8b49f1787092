/** The script iterates over sets and dict keys, whose order Python does
    not fix. A loop over a set is modelled as picking any element of the
    part not yet visited; these facts track the visited part. */
module Visits {
  /** Visiting `x` from the unvisited part `rest` adds it to the visited part. */
  lemma VisitOne<T>(all: set<T>, rest: set<T>, x: T)
    requires x in rest && rest <= all
    ensures all - (rest - {x}) == (all - rest) + {x}
    ensures x !in all - rest
  {
  }
}
