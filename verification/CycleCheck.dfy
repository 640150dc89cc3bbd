/** What the depth-first walks over presets and over environments share. */
module CycleCheck {

  /** The status of a name in a walk that looks for cycles. */
  datatype CycleStatus = Unvisited | InProgress | Verified

  /** Fewer names are outside a path that grows: the measure of both recursions. */
  lemma PathShrinks(names: set<string>, n: string, path: set<string>)
    requires n in names && n !in path
    ensures |names - (path + {n})| < |names - path|
  {
    assert names - (path + {n}) == names - path - {n};
  }
}
