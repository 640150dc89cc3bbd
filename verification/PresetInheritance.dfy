/**
  Preset inheritance (cmCMakePresetsGraph): VisitPreset bubbles fields up the
  inherits relation while it looks for cycles.  The presets sit in a map that is
  updated in place; the cycle status is passed by value, so a preset may be
  visited again after it has been merged.
 */
module PresetInheritance {
  import opened CycleCheck
  import opened Options
  import opened PresetFields
  import opened Reachability

  // ----------------------------------------------------------- specification

  type Presets = map<string, Preset>

  /** Which files a file can reach, and the schema version of a file. */
  datatype Files = Files(reachable: map<FileId, set<FileId>>, version: map<FileId, int>)

  predicate FileReaches(files: Files, a: FileId, b: FileId) {
    a in files.reachable && b in files.reachable[a]
  }

  function VersionOf(files: Files, p: Preset): int {
    if p.originFile in files.version then files.version[p.originFile] else 0
  }

  /** The map's keys are the presets' names and all presets are of one kind. */
  ghost predicate WellNamed(orig: Presets) {
    && (forall n | n in orig :: orig[n].name == n)
    && (forall n, m | n in orig && m in orig :: SameKind(orig[n], orig[m]))
  }

  /** The original preset merged with its resolved parents, in order. */
  ghost function Resolve(orig: Presets, n: string, path: set<string>): Preset
    requires n in orig
    decreases |orig.Keys - path|, 1, 0
  {
    if n in path then orig[n] else
    PathShrinks(orig.Keys, n, path);
    ResolveFrom(orig, n, |orig[n].inherits|, path + {n})
  }

  /** The first k parents merged. */
  ghost function ResolveFrom(orig: Presets, n: string, k: nat, path: set<string>): Preset
    requires n in orig && k <= |orig[n].inherits|
    decreases |orig.Keys - path|, 2, k
  {
    if k == 0 then orig[n] else
    var p := orig[n].inherits[k - 1];
    var acc := ResolveFrom(orig, n, k - 1, path);
    if p in orig then Merge(acc, Resolve(orig, p, path)) else acc
  }

  /** Is the k-th parent of n present and in a file that n's file reaches? */
  ghost predicate ParentAvailable(orig: Presets, files: Files, n: string, k: nat)
    requires n in orig && k < |orig[n].inherits|
  {
    var p := orig[n].inherits[k];
    p in orig && FileReaches(files, orig[n].originFile, orig[p].originFile)
  }

  /** The verdict of VisitPreset on n when the presets of path are in progress. */
  ghost predicate Accepts(orig: Presets, files: Files, n: string, path: set<string>)
    requires n in orig
    decreases |orig.Keys - path|, 1, 0
  {
    && n !in path && BeforeInheritOk(orig[n])
    && (PathShrinks(orig.Keys, n, path);
        AcceptsParents(orig, files, n, |orig[n].inherits|, path + {n}))
    && AfterInheritOk(Resolve(orig, n, path), VersionOf(files, orig[n]))
  }

  ghost predicate AcceptsParents(orig: Presets, files: Files, n: string, k: nat, path: set<string>)
    requires n in orig && k <= |orig[n].inherits|
    decreases |orig.Keys - path|, 2, k
  {
    k == 0 || (AcceptsParents(orig, files, n, k - 1, path) && ParentAvailable(orig, files, n, k - 1)
               && Accepts(orig, files, orig[n].inherits[k - 1], path))
  }

  // ------------------------------------------------- what a visit does to conditions

  function ConditionOf(conditions: Conditions, n: string): Option<Condition> {
    if n in conditions then Some(conditions[n]) else None
  }

  /** A preset without a condition takes its parent's. */
  function InheritCondition(conditions: Conditions, n: string, parent: string): Conditions {
    if n !in conditions && parent in conditions then conditions[n := conditions[parent]] else conditions
  }

  /** At the end of a visit the null marker is removed. */
  function EraseNull(conditions: Conditions, n: string): Conditions {
    if n in conditions && conditions[n].Null? then conditions - {n} else conditions
  }

  /** The conditions after a visit of n. */
  ghost function Visited(orig: Presets, conditions: Conditions, n: string, path: set<string>): Conditions
    requires n in orig
    decreases |orig.Keys - path|, 1, 0
  {
    if n in path then conditions else
    PathShrinks(orig.Keys, n, path);
    EraseNull(ParentsVisited(orig, conditions, n, |orig[n].inherits|, path + {n}), n)
  }

  /** The conditions after the first k parents of n were visited. */
  ghost function ParentsVisited(orig: Presets, conditions: Conditions, n: string, k: nat, path: set<string>)
    : Conditions
    requires n in orig && k <= |orig[n].inherits|
    decreases |orig.Keys - path|, 2, k
  {
    if k == 0 then conditions else
    var p := orig[n].inherits[k - 1];
    var before := ParentsVisited(orig, conditions, n, k - 1, path);
    if p in orig then InheritCondition(Visited(orig, before, p, path), n, p) else before
  }

  /** The conditions after all presets were visited in the given order. */
  ghost function AllVisited(orig: Presets, conditions: Conditions, order: seq<string>): Conditions
    requires forall n | n in order :: n in orig
  {
    if order == [] then conditions else
    var k := |order| - 1;
    assert forall n | n in order[..k] :: n in order;
    Visited(orig, AllVisited(orig, conditions, order[..k]), order[k], {})
  }

  /** Each name once. */
  ghost predicate Enumerates(order: seq<string>, names: set<string>) {
    && (forall i, j | 0 <= i < j < |order| :: order[i] != order[j])
    && (forall n :: n in order <==> n in names)
  }

  // -------------------------------------------------- facts about the verdict

  /** An accepted preset is accepted, with the same result, from any smaller path. */
  lemma {:induction false} SmallerPath(orig: Presets, files: Files, n: string, path: set<string>, path': set<string>)
    requires n in orig && path' <= path && Accepts(orig, files, n, path)
    ensures Accepts(orig, files, n, path') && Resolve(orig, n, path') == Resolve(orig, n, path)
    decreases |orig.Keys - path|, 1, 0
  {
    PathShrinks(orig.Keys, n, path);
    SmallerPathParents(orig, files, n, |orig[n].inherits|, path + {n}, path' + {n});
  }

  lemma {:induction false} SmallerPathParents(
      orig: Presets, files: Files, n: string, k: nat, path: set<string>, path': set<string>)
    requires n in orig && k <= |orig[n].inherits| && path' <= path
    requires AcceptsParents(orig, files, n, k, path)
    ensures AcceptsParents(orig, files, n, k, path')
    ensures ResolveFrom(orig, n, k, path') == ResolveFrom(orig, n, k, path)
    decreases |orig.Keys - path|, 2, k
  {
    if k > 0 {
      SmallerPathParents(orig, files, n, k - 1, path, path');
      SmallerPath(orig, files, orig[n].inherits[k - 1], path, path');
    }
  }

  /** A merged prefix of the parents has nothing to gain from one of them. */
  lemma {:induction false} ParentAbsorbed(orig: Presets, n: string, k: nat, j: nat, path: set<string>)
    requires n in orig && j < k <= |orig[n].inherits| && orig[n].inherits[j] in orig
    ensures var acc := ResolveFrom(orig, n, k, path);
            Merge(acc, Resolve(orig, orig[n].inherits[j], path)) == acc
  {
    var acc := ResolveFrom(orig, n, k - 1, path);
    var p := orig[n].inherits[k - 1];
    if j == k - 1 {
      MergeAbsorbs(acc, Resolve(orig, p, path));
    } else {
      ParentAbsorbed(orig, n, k - 1, j, path);
      if p in orig {
        MergeStaysAbsorbed(acc, Resolve(orig, orig[n].inherits[j], path), Resolve(orig, p, path));
      }
    }
  }

  lemma {:induction false} NoEmptyKey(orig: Presets, files: Files, n: string, path: set<string>)
    requires n in orig && Accepts(orig, files, n, path)
    ensures BeforeInheritOk(Resolve(orig, n, path))
    decreases |orig.Keys - path|, 1, 0
  {
    PathShrinks(orig.Keys, n, path);
    NoEmptyKeyFrom(orig, files, n, |orig[n].inherits|, path + {n});
  }

  lemma {:induction false} NoEmptyKeyFrom(orig: Presets, files: Files, n: string, k: nat, path: set<string>)
    requires n in orig && k <= |orig[n].inherits| && BeforeInheritOk(orig[n])
    requires AcceptsParents(orig, files, n, k, path)
    ensures BeforeInheritOk(ResolveFrom(orig, n, k, path))
    decreases |orig.Keys - path|, 2, k
  {
    if k > 0 {
      NoEmptyKeyFrom(orig, files, n, k - 1, path);
      NoEmptyKey(orig, files, orig[n].inherits[k - 1], path);
    }
  }

  // ------------------------------------------------------------- the program

  ghost function Pending(status: map<string, CycleStatus>): set<string> {
    set n | n in status && status[n].InProgress?
  }

  lemma PendingGrows(status: map<string, CycleStatus>, n: string)
    ensures Pending(status[n := InProgress]) == Pending(status) + {n}
    ensures forall m | m in status && !status[m].Verified? :: !status[n := InProgress][m].Verified?
  {
  }

  /** Merged already, for good. */
  ghost predicate Settled(orig: Presets, files: Files, cur: Presets, n: string)
    requires n in orig && n in cur
  {
    Accepts(orig, files, n, {}) && cur[n] == Resolve(orig, n, {})
  }

  /** No visit takes back what an earlier visit settled; n is not looked at. */
  ghost predicate StillSettled(orig: Presets, files: Files, before: Presets, cur: Presets, n: string) {
    && orig.Keys <= before.Keys && orig.Keys <= cur.Keys
    && forall m | m in orig && m != n && Settled(orig, files, before, m) :: Settled(orig, files, cur, m)
  }

  /** Every preset that is not in progress is as it was read or settled. */
  ghost predicate Consistent(orig: Presets, files: Files, cur: Presets, path: set<string>) {
    && cur.Keys == orig.Keys
    && (forall m | m in orig :: SameIdentity(cur[m], orig[m]))
    && (forall m | m in orig && m !in path :: cur[m] == orig[m] || Settled(orig, files, cur, m))
  }

  /** Preset n with k parents processed: merged this far, or settled by an earlier visit. */
  ghost predicate MergedThisFar(orig: Presets, files: Files, cur: Presets, n: string, k: nat, path: set<string>)
    requires n in orig && n in cur && k <= |orig[n].inherits|
  {
    cur[n] == ResolveFrom(orig, n, k, path) || Settled(orig, files, cur, n)
  }

  /** Merging an accepted, settled parent advances the merge by one parent. */
  lemma MergeAdvances(orig: Presets, files: Files, cur: Presets, n: string, k: nat, path: set<string>)
    requires n in orig && n in path && cur.Keys == orig.Keys && k < |orig[n].inherits|
    requires MergedThisFar(orig, files, cur, n, k, path)
    requires orig[n].inherits[k] in orig && Accepts(orig, files, orig[n].inherits[k], path)
    requires Settled(orig, files, cur, orig[n].inherits[k])
    ensures MergedThisFar(orig, files, cur[n := Merge(cur[n], cur[orig[n].inherits[k]])], n, k + 1, path)
  {
    var p := orig[n].inherits[k];
    SmallerPath(orig, files, p, path, {});
    if Settled(orig, files, cur, n) {
      SmallerPath(orig, files, p, path, {n});
      ParentAbsorbed(orig, n, |orig[n].inherits|, k, {n});
      assert {} + {n} == {n};
    }
  }

  /** Merging changes neither the name nor the parents, the file or the hidden flag. */
  ghost predicate SameIdentity(p: Preset, q: Preset) {
    p.name == q.name && p.inherits == q.inherits && p.originFile == q.originFile && p.hidden == q.hidden
  }

  /** A visit starts from the preset's own environment or from a settled preset. */
  lemma VisitBegins(orig: Presets, files: Files, cur: Presets, n: string, path: set<string>)
    requires n in orig && n !in path && Consistent(orig, files, cur, path)
    ensures BeforeInheritOk(cur[n]) <==> BeforeInheritOk(orig[n])
    ensures MergedThisFar(orig, files, cur, n, 0, path + {n})
    ensures Consistent(orig, files, cur, path + {n})
    ensures |orig.Keys - (path + {n})| < |orig.Keys - path|
  {
    PathShrinks(orig.Keys, n, path);
    if Settled(orig, files, cur, n) {
      NoEmptyKey(orig, files, n, {});
    }
  }

  /** When all parents are merged, n carries its resolution and only the last check is left. */
  lemma VisitEnds(orig: Presets, files: Files, cur: Presets, n: string, path: set<string>)
    requires n in orig && n !in path && Consistent(orig, files, cur, path + {n})
    requires MergedThisFar(orig, files, cur, n, |orig[n].inherits|, path + {n})
    requires BeforeInheritOk(orig[n]) && AcceptsParents(orig, files, n, |orig[n].inherits|, path + {n})
    ensures Accepts(orig, files, n, path) <==> AfterInheritOk(cur[n], VersionOf(files, cur[n]))
    ensures Accepts(orig, files, n, path) ==> Settled(orig, files, cur, n) && Consistent(orig, files, cur, path)
  {
    VerdictEnds(orig, files, cur, n, path);
    if Accepts(orig, files, n, path) {
      SmallerPath(orig, files, n, path, {});
      ResolvedFully(orig, files, n, path);
    }
  }

  /** With all parents merged the preset's resolution does not depend on the path. */
  lemma ResolvedFully(orig: Presets, files: Files, n: string, path: set<string>)
    requires n in orig && n !in path && AcceptsParents(orig, files, n, |orig[n].inherits|, path + {n})
    ensures ResolveFrom(orig, n, |orig[n].inherits|, path + {n}) == Resolve(orig, n, path) == Resolve(orig, n, {})
  {
    PathShrinks(orig.Keys, n, path);
    PathShrinks(orig.Keys, n, {});
    SmallerPathParents(orig, files, n, |orig[n].inherits|, path + {n}, {} + {n});
  }

  lemma VerdictEnds(orig: Presets, files: Files, cur: Presets, n: string, path: set<string>)
    requires n in orig && n in cur && n !in path && SameIdentity(cur[n], orig[n])
    requires MergedThisFar(orig, files, cur, n, |orig[n].inherits|, path + {n})
    requires BeforeInheritOk(orig[n]) && AcceptsParents(orig, files, n, |orig[n].inherits|, path + {n})
    ensures Accepts(orig, files, n, path) <==> AfterInheritOk(cur[n], VersionOf(files, cur[n]))
  {
    ResolvedFully(orig, files, n, path);
    PathShrinks(orig.Keys, n, path);
  }

  /** Writing to a preset in progress disturbs none of the others. */
  lemma OthersSettled(orig: Presets, files: Files, cur: Presets, n: string, p: Preset, path: set<string>)
    requires Consistent(orig, files, cur, path) && n in path && n in orig && SameIdentity(p, orig[n])
    ensures Consistent(orig, files, cur[n := p], path)
    ensures StillSettled(orig, files, cur, cur[n := p], n)
  {
    var cur' := cur[n := p];
    forall m | m in orig && m !in path
      ensures cur'[m] == orig[m] || Settled(orig, files, cur', m)
    {
      assert cur[m] == orig[m] || Settled(orig, files, cur, m);
    }
  }

  /** The end of the loop body: everything the loop of VisitPreset relies on. */
  lemma MergeStep(orig: Presets, files: Files, before: Presets, cur: Presets, n: string, k: nat, path: set<string>)
    requires n in orig && n in path && k < |orig[n].inherits| && orig[n].inherits[k] in orig
    requires Consistent(orig, files, cur, path) && MergedThisFar(orig, files, cur, n, k, path)
    requires Accepts(orig, files, orig[n].inherits[k], path)
    requires Settled(orig, files, cur, orig[n].inherits[k])
    requires StillSettled(orig, files, before, cur, orig[n].inherits[k])
    ensures var cur' := cur[n := Merge(cur[n], cur[orig[n].inherits[k]])];
      && MergedThisFar(orig, files, cur', n, k + 1, path)
      && Consistent(orig, files, cur', path)
      && StillSettled(orig, files, before, cur', n)
  {
    var p := orig[n].inherits[k];
    MergeAdvances(orig, files, cur, n, k, path);
    OthersSettled(orig, files, cur, n, Merge(cur[n], cur[p]), path);
  }

  /** What a refused parent means for the child. */
  lemma ParentsRefused(orig: Presets, files: Files, n: string, k: nat, path: set<string>)
    requires n in orig && k < |orig[n].inherits|
    requires !AcceptsParents(orig, files, n, k + 1, path)
    ensures !AcceptsParents(orig, files, n, |orig[n].inherits|, path)
    decreases |orig[n].inherits| - k
  {
    if k + 1 < |orig[n].inherits| {
      ParentsRefused(orig, files, n, k + 1, path);
    }
  }

  class PresetsGraph {
    var presets: Presets
    var conditions: Conditions
    const files: Files

    constructor (presets: Presets, conditions: Conditions, files: Files)
      ensures this.presets == presets && this.conditions == conditions && this.files == files
    {
      this.presets, this.conditions, this.files := presets, conditions, files;
    }

    method VisitPreset(n: string, status: map<string, CycleStatus>, ghost orig: Presets, ghost path: set<string>)
      returns (ok: bool)
      requires n in orig && WellNamed(orig) && Consistent(orig, files, presets, path) && path == Pending(status)
      requires orig.Keys == status.Keys
      requires forall m | m in status :: !status[m].Verified?
      modifies this
      ensures ok <==> Accepts(orig, files, n, path)
      ensures presets.Keys == orig.Keys
      ensures forall m | m in path :: presets[m] == old(presets[m])
      ensures ok ==> Consistent(orig, files, presets, path) && Settled(orig, files, presets, n)
      ensures ok ==> StillSettled(orig, files, old(presets), presets, n)
      ensures ok ==> conditions == Visited(orig, old(conditions), n, path)
      decreases |orig.Keys - path|, 0
    {
      if status[n].InProgress? {
        return false;
      }
      PendingGrows(status, n);
      VisitBegins(orig, files, presets, n, path);
      ok := false;
      if BeforeInheritOk(presets[n]) {
        ok := VisitParents(n, status[n := InProgress], orig, path + {n});
        if ok {
          ok := CheckAfterInherit(n, orig, path);
        }
      }
    }

    /** The checks of VisitPreset after its loop. */
    method CheckAfterInherit(n: string, ghost orig: Presets, ghost path: set<string>) returns (ok: bool)
      requires n in orig && n !in path && Consistent(orig, files, presets, path + {n})
      requires MergedThisFar(orig, files, presets, n, |orig[n].inherits|, path + {n})
      requires BeforeInheritOk(orig[n]) && AcceptsParents(orig, files, n, |orig[n].inherits|, path + {n})
      ensures ok <==> Accepts(orig, files, n, path)
      ensures ok ==> Settled(orig, files, presets, n) && Consistent(orig, files, presets, path)
    {
      VisitEnds(orig, files, presets, n, path);
      ok := VisitPresetAfterInherit(presets[n]);
    }

    /** VisitPresetAfterInherit, for every kind of preset. */
    method VisitPresetAfterInherit(preset: Preset) returns (ok: bool)
      ensures ok <==> HasDemanded(files, preset)
      ensures ok <==> AfterInheritOk(preset, VersionOf(files, preset))
    {
      LastCheck(files, preset);
      if preset.hidden {
        return true;
      }
      match preset.fields {
        case ForBuild(b) => return b.configurePreset != "";
        case ForTest(t) => return t.configurePreset != "";
        case ForPackage(p) => return p.configurePreset != "";
        case ForConfigure(c) =>
          if VersionOf(files, preset) < 3 {
            if c.generator == "" || c.binaryDir == "" {
              return false;
            }
          }
          if c.warnDev == Some(false) && c.errorDev == Some(true) {
            return false;
          }
          if c.warnDeprecated == Some(false) && c.errorDeprecated == Some(true) {
            return false;
          }
          return "" !in c.cacheVariables;
      }
    }

    /** The loop of VisitPreset over the parents of n, and the removal of the null marker behind it. */
    method VisitParents(n: string, cycleStatus: map<string, CycleStatus>, ghost orig: Presets, ghost path: set<string>)
      returns (ok: bool)
      requires n in orig && WellNamed(orig) && Consistent(orig, files, presets, path)
      requires orig.Keys == cycleStatus.Keys && n in path && path == Pending(cycleStatus)
      requires forall m | m in cycleStatus :: !cycleStatus[m].Verified?
      requires MergedThisFar(orig, files, presets, n, 0, path)
      modifies this
      ensures ok <==> AcceptsParents(orig, files, n, |orig[n].inherits|, path)
      ensures presets.Keys == orig.Keys
      ensures forall m | m in path && m != n :: presets[m] == old(presets[m])
      ensures ok ==> Consistent(orig, files, presets, path)
      ensures ok ==> StillSettled(orig, files, old(presets), presets, n)
      ensures ok ==> MergedThisFar(orig, files, presets, n, |orig[n].inherits|, path)
      ensures ok ==> conditions == EraseNull(ParentsVisited(orig, old(conditions), n, |orig[n].inherits|, path), n)
      decreases |orig.Keys - path|, 2
    {
      var k := 0;
      var parents := presets[n].inherits;
      while k < |parents|
        invariant k <= |parents|
        invariant Consistent(orig, files, presets, path)
        invariant StillSettled(orig, files, old(presets), presets, n)
        invariant MergedThisFar(orig, files, presets, n, k, path)
        invariant AcceptsParents(orig, files, n, k, path)
        invariant conditions == ParentsVisited(orig, old(conditions), n, k, path)
        invariant forall m | m in path && m != n :: presets[m] == old(presets[m])
      {
        ok := VisitParent(n, k, cycleStatus, orig, path);
        if !ok {
          ParentsRefused(orig, files, n, k, path);
          return;
        }
        k := k + 1;
      }
      conditions := EraseNull(conditions, n);
      return true;
    }

    /** The loop body of VisitPreset for parent number k of n. */
    method VisitParent(
        n: string, k: nat, cycleStatus: map<string, CycleStatus>, ghost orig: Presets, ghost path: set<string>)
      returns (ok: bool)
      requires n in orig && WellNamed(orig) && Consistent(orig, files, presets, path)
      requires orig.Keys == cycleStatus.Keys && n in path && path == Pending(cycleStatus)
      requires forall m | m in cycleStatus :: !cycleStatus[m].Verified?
      requires k < |orig[n].inherits|
      requires MergedThisFar(orig, files, presets, n, k, path)
      requires AcceptsParents(orig, files, n, k, path)
      modifies this
      ensures ok <==> AcceptsParents(orig, files, n, k + 1, path)
      ensures presets.Keys == orig.Keys
      ensures forall m | m in path && m != n :: presets[m] == old(presets[m])
      ensures ok ==> Consistent(orig, files, presets, path)
      ensures ok ==> StillSettled(orig, files, old(presets), presets, n)
      ensures ok ==> MergedThisFar(orig, files, presets, n, k + 1, path)
      ensures ok ==> ParentAvailable(orig, files, n, k) && conditions == InheritCondition(
                Visited(orig, old(conditions), orig[n].inherits[k], path), n, orig[n].inherits[k])
      decreases |orig.Keys - path|, 1
    {
      var p := presets[n].inherits[k];
      if p !in presets {
        return false;
      }
      if !FileReaches(files, presets[n].originFile, presets[p].originFile) {
        return false;
      }
      ok := VisitPreset(p, cycleStatus, orig, path);
      if ok {
        InheritFrom(n, k, orig, path, old(presets));
      }
    }

    /** Fill what n lacks from its parent number k, which has been visited. */
    method InheritFrom(n: string, k: nat, ghost orig: Presets, ghost path: set<string>, ghost before: Presets)
      requires n in orig && n in path && k < |orig[n].inherits| && orig[n].inherits[k] in orig
      requires Consistent(orig, files, presets, path) && MergedThisFar(orig, files, presets, n, k, path)
      requires Accepts(orig, files, orig[n].inherits[k], path) && Settled(orig, files, presets, orig[n].inherits[k])
      requires StillSettled(orig, files, before, presets, orig[n].inherits[k])
      modifies this
      ensures forall m | m in orig && m != n :: m in presets && presets[m] == old(presets)[m]
      ensures Consistent(orig, files, presets, path) && StillSettled(orig, files, before, presets, n)
      ensures MergedThisFar(orig, files, presets, n, k + 1, path)
      ensures conditions == InheritCondition(old(conditions), n, orig[n].inherits[k])
    {
      MergeStep(orig, files, before, presets, n, k, path);
      var p := presets[n].inherits[k];
      conditions := InheritCondition(conditions, n, p);
      presets := presets[n := Merge(presets[n], presets[p])];
    }

    method ComputePresetInheritance() returns (ok: bool, ghost order: seq<string>)
      requires WellNamed(presets)
      modifies this
      ensures ok <==> Inheritable(old(presets), files)
      ensures ok ==> AllAccepted(old(presets), files) && presets.Keys == old(presets).Keys
      ensures ok ==> forall n | n in presets :: presets[n] == Resolve(old(presets), n, {})
      ensures ok ==> Enumerates(order, presets.Keys)
      ensures ok ==> conditions == AllVisited(old(presets), old(conditions), order)
    {
      InheritanceFromTexts(presets, files);
      ok, order := VisitPresets();
    }

    /** The loop of ComputePresetInheritance. */
    method VisitPresets() returns (ok: bool, ghost order: seq<string>)
      requires WellNamed(presets)
      modifies this
      ensures ok <==> AllAccepted(old(presets), files)
      ensures ok ==> presets.Keys == old(presets).Keys
      ensures ok ==> forall n | n in presets :: presets[n] == Resolve(old(presets), n, {})
      ensures ok ==> Enumerates(order, presets.Keys)
      ensures ok ==> conditions == AllVisited(old(presets), old(conditions), order)
    {
      ghost var orig, asRead := presets, conditions;
      order := [];
      var cycleStatus := map n | n in presets :: Unvisited;
      assert Pending(cycleStatus) == {};
      var todo := presets.Keys;
      while todo != {}
        invariant todo <= orig.Keys && Consistent(orig, files, presets, {})
        invariant VisitedAllBut(orig, files, presets, asRead, conditions, order, todo)
        decreases todo
      {
        var n :| n in todo;
        ghost var before, beforeConditions := presets, conditions;
        ok := VisitPreset(n, cycleStatus, orig, {});
        if !ok {
          return;
        }
        OneMoreVisited(orig, files, before, presets, asRead, beforeConditions, order, todo, n);
        order := order + [n];
        todo := todo - {n};
      }
      EverySettled(orig, files, presets, asRead, conditions, order);
      ok := true;
    }
  }

  /** All presets but those still to be visited are merged, and the conditions are those after visits in order. */
  ghost predicate VisitedAllBut(orig: Presets, files: Files, cur: Presets, asRead: Conditions,
                                conditions: Conditions, order: seq<string>, todo: set<string>)
    requires cur.Keys == orig.Keys
  {
    && (forall n | n in orig && n !in todo :: Settled(orig, files, cur, n))
    && Enumerates(order, orig.Keys - todo) && conditions == AllVisited(orig, asRead, order)
  }

  lemma OneMoreVisited(orig: Presets, files: Files, before: Presets, cur: Presets, asRead: Conditions,
                       conditions: Conditions, order: seq<string>, todo: set<string>, n: string)
    requires cur.Keys == before.Keys == orig.Keys && n in todo && todo <= orig.Keys
    requires VisitedAllBut(orig, files, before, asRead, conditions, order, todo)
    requires Settled(orig, files, cur, n) && StillSettled(orig, files, before, cur, n)
    ensures VisitedAllBut(orig, files, cur, asRead, Visited(orig, conditions, n, {}), order + [n], todo - {n})
  {
    forall m | m in orig && m !in todo - {n}
      ensures Settled(orig, files, cur, m)
    {
      if m != n { assert Settled(orig, files, before, m); }
    }
    assert (order + [n])[..|order|] == order;
  }

  lemma EverySettled(orig: Presets, files: Files, cur: Presets, asRead: Conditions,
                     conditions: Conditions, order: seq<string>)
    requires cur.Keys == orig.Keys && VisitedAllBut(orig, files, cur, asRead, conditions, order, {})
    ensures AllAccepted(orig, files) && forall n | n in cur :: cur[n] == Resolve(orig, n, {})
    ensures Enumerates(order, cur.Keys) && conditions == AllVisited(orig, asRead, order)
  {
    forall n | n in cur
      ensures Accepts(orig, files, n, {}) && cur[n] == Resolve(orig, n, {})
    {
      assert Settled(orig, files, cur, n);
    }
  }

  ghost predicate AllAccepted(orig: Presets, files: Files) {
    forall n | n in orig :: Accepts(orig, files, n, {})
  }

  // ----------------------------------------------------------- main theorems

  /** What presets themselves say about something. */
  type Getter = Preset -> Option<Value>

  function SlotOf(s: Slot): Getter {
    (p: Preset) => Get(p, s)
  }

  /** The first value among n itself and its ancestors, depth first, in order: what inheriting is to give. */
  ghost function Lookup(orig: Presets, n: string, get: Getter, path: set<string>): Option<Value>
    requires n in orig
    decreases |orig.Keys - path|, 1, 0
  {
    if n in path then get(orig[n]) else
    PathShrinks(orig.Keys, n, path);
    OrElse(get(orig[n]), LookupParents(orig, n, |orig[n].inherits|, get, path + {n}))
  }

  ghost function LookupParents(orig: Presets, n: string, k: nat, get: Getter, path: set<string>): Option<Value>
    requires n in orig && k <= |orig[n].inherits|
    decreases |orig.Keys - path|, 2, k
  {
    if k == 0 then None else
    var p := orig[n].inherits[k - 1];
    OrElse(LookupParents(orig, n, k - 1, get, path), if p in orig then Lookup(orig, p, get, path) else None)
  }

  /**
    What merging computes: in every slot of an accepted preset, the preset's own
    value, else the value of the first parent, in order, that has one.
   */
  lemma {:induction false} ResolvedSlot(orig: Presets, n: string, s: Slot, path: set<string>)
    requires n in orig && WellNamed(orig)
    ensures Get(Resolve(orig, n, path), s) == Lookup(orig, n, SlotOf(s), path)
    ensures SameKind(Resolve(orig, n, path), orig[n])
    decreases |orig.Keys - path|, 1, 0
  {
    if n !in path {
      PathShrinks(orig.Keys, n, path);
      ResolvedSlotFrom(orig, n, |orig[n].inherits|, s, path + {n});
    }
  }

  lemma {:induction false} ResolvedSlotFrom(orig: Presets, n: string, k: nat, s: Slot, path: set<string>)
    requires n in orig && k <= |orig[n].inherits| && WellNamed(orig)
    ensures Get(ResolveFrom(orig, n, k, path), s)
            == OrElse(Get(orig[n], s), LookupParents(orig, n, k, SlotOf(s), path))
    ensures SameKind(ResolveFrom(orig, n, k, path), orig[n])
    decreases |orig.Keys - path|, 2, k
  {
    if k > 0 {
      ResolvedSlotFrom(orig, n, k - 1, s, path);
      var p, acc := orig[n].inherits[k - 1], ResolveFrom(orig, n, k - 1, path);
      if p in orig {
        ResolvedSlot(orig, p, s, path);
        SlotStep(acc, Resolve(orig, p, path), orig[n], orig[p], s, LookupParents(orig, n, k - 1, SlotOf(s), path));
      }
    }
  }

  /** Merging one more parent looks the slot up in one more parent. */
  lemma SlotStep(acc: Preset, parent: Preset, p: Preset, q: Preset, s: Slot, inherited: Option<Value>)
    requires SameKind(acc, p) && SameKind(parent, q) && SameKind(p, q)
    requires Get(acc, s) == OrElse(Get(p, s), inherited)
    ensures Get(Merge(acc, parent), s) == OrElse(Get(p, s), OrElse(inherited, Get(parent, s)))
    ensures SameKind(Merge(acc, parent), p)
  {
    MergeKeepsKind(acc, parent);
    MergeSlot(acc, parent, s);
    ThirdChoice(Get(p, s), inherited, Get(parent, s));
  }

  lemma MergeKeepsKind(p: Preset, parent: Preset)
    ensures SameKind(Merge(p, parent), p)
  {
  }

  lemma ThirdChoice<T>(a: Option<T>, b: Option<T>, c: Option<T>)
    ensures OrElse(OrElse(a, b), c) == OrElse(a, OrElse(b, c))
  {
  }

  ghost predicate Inherits(orig: Presets, a: string, b: string) {
    a in orig && b in orig[a].inherits
  }

  ghost function InheritsRel(orig: Presets): (string, string) -> bool {
    (a: string, b: string) => Inherits(orig, a, b)
  }

  ghost predicate ParentsAvailable(orig: Presets, files: Files) {
    forall n, k | n in orig && 0 <= k < |orig[n].inherits| :: ParentAvailable(orig, files, n, k)
  }

  ghost predicate Acyclic(orig: Presets) {
    forall n | n in orig :: !ReachesPlus(InheritsRel(orig), n, n)
  }

  lemma {:induction false} AcceptsParent(orig: Presets, files: Files, n: string, k: nat, j: nat, path: set<string>)
    requires n in orig && j < k <= |orig[n].inherits| && AcceptsParents(orig, files, n, k, path)
    ensures ParentAvailable(orig, files, n, j) && Accepts(orig, files, orig[n].inherits[j], path)
  {
    if j < k - 1 {
      AcceptsParent(orig, files, n, k - 1, j, path);
    }
  }

  /** Acceptance follows the inherits relation, with the nodes passed in progress. */
  lemma {:induction false} AcceptsAlong(orig: Presets, files: Files, p: seq<string>, k: nat)
    requires k < |p| && p[0] in orig && Accepts(orig, files, p[0], {})
    requires IsPath(InheritsRel(orig), p, p[0], p[|p| - 1])
    ensures p[k] in orig && Accepts(orig, files, p[k], set i | 0 <= i < k :: p[i])
  {
    var seen := set i | 0 <= i < k :: p[i];
    if k == 0 {
      assert seen == {};
    } else {
      AcceptsAlong(orig, files, p, k - 1);
      var before := set i | 0 <= i < k - 1 :: p[i];
      assert seen == before + {p[k - 1]};
      assert Inherits(orig, p[k - 1], p[k - 1 + 1]);
      var n := p[k - 1];
      var j :| 0 <= j < |orig[n].inherits| && orig[n].inherits[j] == p[k];
      PathShrinks(orig.Keys, n, before);
      AcceptsParent(orig, files, n, |orig[n].inherits|, j, seen);
    }
  }

  lemma AcceptedIsAcyclic(orig: Presets, files: Files, n: string)
    requires n in orig && Accepts(orig, files, n, {})
    ensures !ReachesPlus(InheritsRel(orig), n, n)
  {
    if ReachesPlus(InheritsRel(orig), n, n) {
      var p := PathOfReachesPlus(InheritsRel(orig), n, n);
      assert p[0] in set i | 0 <= i < |p| - 1 :: p[i];
      AcceptsAlong(orig, files, p, |p| - 1);
    }
  }

  /** On an acyclic relation with all parents available only the local checks remain. */
  lemma {:induction false} AcyclicAccepts(orig: Presets, files: Files, n: string, path: set<string>)
    requires n in orig && Acyclic(orig) && ParentsAvailable(orig, files)
    requires forall m | m in orig :: BeforeInheritOk(orig[m])
    requires forall m | m in orig :: AfterInheritOk(Resolve(orig, m, {}), VersionOf(files, orig[m]))
    requires forall x | x in path :: ReachesPlus(InheritsRel(orig), x, n)
    ensures Accepts(orig, files, n, path)
    decreases |orig.Keys - path|, 1, 0
  {
    PathShrinks(orig.Keys, n, path);
    AcyclicAcceptsParents(orig, files, n, |orig[n].inherits|, path + {n});
    PathShrinks(orig.Keys, n, {});
    SmallerPathParents(orig, files, n, |orig[n].inherits|, path + {n}, {} + {n});
  }

  lemma {:induction false} AcyclicAcceptsParents(orig: Presets, files: Files, n: string, k: nat, path: set<string>)
    requires n in orig && k <= |orig[n].inherits| && Acyclic(orig) && ParentsAvailable(orig, files)
    requires forall m | m in orig :: BeforeInheritOk(orig[m])
    requires forall m | m in orig :: AfterInheritOk(Resolve(orig, m, {}), VersionOf(files, orig[m]))
    requires forall x | x in path :: x == n || ReachesPlus(InheritsRel(orig), x, n)
    ensures AcceptsParents(orig, files, n, k, path)
    decreases |orig.Keys - path|, 2, k
  {
    if k > 0 {
      AcyclicAcceptsParents(orig, files, n, k - 1, path);
      var p := orig[n].inherits[k - 1];
      assert ParentAvailable(orig, files, n, k - 1) && Inherits(orig, n, p);
      forall x | x in path
        ensures ReachesPlus(InheritsRel(orig), x, p)
      {
        if x == n {
          ReachesSelf(InheritsRel(orig), p);
        } else {
          var m :| Inherits(orig, x, m) && Reaches(InheritsRel(orig), m, n);
          ReachesThenEdge(InheritsRel(orig), m, n, p);
        }
      }
      AcyclicAccepts(orig, files, p, path);
    }
  }

  /**
    When inheritance succeeds: exactly when the relation is acyclic, every parent
    exists in a file the child's file reaches, no environment has an empty key,
    and every resolved preset passes its last check.
   */
  lemma InheritanceVerdict(orig: Presets, files: Files)
    ensures AllAccepted(orig, files) <==>
      && Acyclic(orig) && ParentsAvailable(orig, files)
      && (forall n | n in orig :: BeforeInheritOk(orig[n]))
      && (forall n | n in orig :: AfterInheritOk(Resolve(orig, n, {}), VersionOf(files, orig[n])))
  {
    if AllAccepted(orig, files) {
      forall n | n in orig
        ensures !ReachesPlus(InheritsRel(orig), n, n)
      {
        AcceptedIsAcyclic(orig, files, n);
      }
      forall n, k | n in orig && 0 <= k < |orig[n].inherits|
        ensures ParentAvailable(orig, files, n, k)
      {
        assert Accepts(orig, files, n, {});
        AcceptsParent(orig, files, n, |orig[n].inherits|, k, {} + {n});
      }
    }
    if && Acyclic(orig) && ParentsAvailable(orig, files)
       && (forall n | n in orig :: BeforeInheritOk(orig[n]))
       && (forall n | n in orig :: AfterInheritOk(Resolve(orig, n, {}), VersionOf(files, orig[n]))) {
      forall n | n in orig
        ensures Accepts(orig, files, n, {})
      {
        AcyclicAccepts(orig, files, n, {});
      }
    }
  }

  // ------------------------------------------- the verdict from the texts

  /** What the slots that the last check looks at hold. */
  datatype Checked = Checked(
    configurePreset: Option<Value>, generator: Option<Value>, binaryDir: Option<Value>, warnDev: Option<Value>,
    errorDev: Option<Value>, warnDeprecated: Option<Value>, errorDeprecated: Option<Value>, unnamed: Option<Value>)

  /**
    What the last check demands: every visible preset but a configure preset names
    one; a visible configure preset has a generator and a binary directory in files
    below version 3, makes no error of a warning that it turns off, and has no cache
    variable without a name.
   */
  predicate Demanded(hidden: bool, configure: bool, early: bool, v: Checked) {
    || hidden
    || (!configure && v.configurePreset.Some?)
    || (&& configure
        && (early ==> v.generator.Some? && v.binaryDir.Some?)
        && !(v.warnDev == Some(Flag(false)) && v.errorDev == Some(Flag(true)))
        && !(v.warnDeprecated == Some(Flag(false)) && v.errorDeprecated == Some(Flag(true)))
        && v.unnamed.None?)
  }

  /** Files below version 3; a preset whose file is not known counts as one. */
  predicate IsEarly(files: Files, file: FileId) {
    !(file in files.version && files.version[file] >= 3)
  }

  function OwnSlots(p: Preset): Checked {
    Checked(Get(p, ConfigurePresetName), Get(p, Generator), Get(p, BinaryDir), Get(p, WarnDev),
            Get(p, ErrorDev), Get(p, WarnDeprecated), Get(p, ErrorDeprecated), Get(p, Variable("")))
  }

  /** The same slots, looked up in the texts: own values, and else those of the first ancestor that has one. */
  ghost function Inherited(orig: Presets, n: string): Checked
    requires n in orig
  {
    var found := (s: Slot) => Lookup(orig, n, SlotOf(s), {});
    Checked(found(ConfigurePresetName), found(Generator), found(BinaryDir), found(WarnDev),
            found(ErrorDev), found(WarnDeprecated), found(ErrorDeprecated), found(Variable("")))
  }

  /** What a preset inherits meets the demands. */
  ghost predicate MeetsDemands(orig: Presets, files: Files, n: string)
    requires n in orig
  {
    Demanded(orig[n].hidden, orig[n].fields.ForConfigure?, IsEarly(files, orig[n].originFile), Inherited(orig, n))
  }

  /** What a preset holds meets the demands. */
  predicate HasDemanded(files: Files, p: Preset) {
    Demanded(p.hidden, p.fields.ForConfigure?, IsEarly(files, p.originFile), OwnSlots(p))
  }

  lemma CheckedFields(c: Configure)
    ensures GetConfigure(c, Generator).Some? <==> c.generator != ""
    ensures GetConfigure(c, BinaryDir).Some? <==> c.binaryDir != ""
    ensures GetConfigure(c, WarnDev) == FlagOf(c.warnDev) && GetConfigure(c, ErrorDev) == FlagOf(c.errorDev)
    ensures GetConfigure(c, WarnDeprecated) == FlagOf(c.warnDeprecated)
    ensures GetConfigure(c, ErrorDeprecated) == FlagOf(c.errorDeprecated)
    ensures GetConfigure(c, Variable("")).Some? <==> "" in c.cacheVariables
  {
  }

  /** The last check of a visit is what is demanded. */
  lemma LastCheck(files: Files, p: Preset)
    ensures AfterInheritOk(p, VersionOf(files, p)) <==> HasDemanded(files, p)
  {
    if p.fields.ForConfigure? {
      CheckedFields(p.fields.configure);
    }
  }

  lemma {:induction false} ResolvedStays(orig: Presets, n: string, k: nat, path: set<string>)
    requires n in orig && k <= |orig[n].inherits|
    ensures SameIdentity(ResolveFrom(orig, n, k, path), orig[n])
  {
    if k > 0 { ResolvedStays(orig, n, k - 1, path); }
  }

  /** n passes its last check exactly when what it inherits meets the demands. */
  lemma LastCheckFromTexts(orig: Presets, files: Files, n: string)
    requires n in orig && WellNamed(orig)
    ensures AfterInheritOk(Resolve(orig, n, {}), VersionOf(files, orig[n])) <==> MeetsDemands(orig, files, n)
  {
    var p := Resolve(orig, n, {});
    ResolvedStays(orig, n, |orig[n].inherits|, {} + {n});
    LastCheck(files, p);
    InheritedSlots(orig, n);
  }

  lemma InheritedSlots(orig: Presets, n: string)
    requires n in orig && WellNamed(orig)
    ensures OwnSlots(Resolve(orig, n, {})) == Inherited(orig, n)
    ensures SameKind(Resolve(orig, n, {}), orig[n])
  {
    ResolvedSlot(orig, n, ConfigurePresetName, {});
    ResolvedSlot(orig, n, Generator, {});
    ResolvedSlot(orig, n, BinaryDir, {});
    ResolvedSlot(orig, n, WarnDev, {});
    ResolvedSlot(orig, n, ErrorDev, {});
    ResolvedSlot(orig, n, WarnDeprecated, {});
    ResolvedSlot(orig, n, ErrorDeprecated, {});
    ResolvedSlot(orig, n, Variable(""), {});
  }

  /** Parent number k of n exists, in a file that n's file reaches. */
  ghost predicate ParentInReach(orig: Presets, files: Files, n: string, k: nat) {
    && n in orig && k < |orig[n].inherits| && orig[n].inherits[k] in orig
    && orig[n].originFile in files.reachable
    && orig[orig[n].inherits[k]].originFile in files.reachable[orig[n].originFile]
  }

  /**
    Presets, as they were read, among which inheritance can succeed: none inherits
    from itself, every parent exists, in a file that the child's file reaches, no
    environment has an empty key, and every preset inherits what is demanded of its
    kind.
   */
  ghost predicate Inheritable(orig: Presets, files: Files) {
    && (forall n | n in orig :: !ReachesPlus(InheritsRel(orig), n, n))
    && (forall n, k | n in orig && 0 <= k < |orig[n].inherits| :: ParentInReach(orig, files, n, k))
    && (forall n | n in orig :: "" !in orig[n].environment)
    && (forall n | n in orig :: MeetsDemands(orig, files, n))
  }

  /** When inheritance succeeds, from the presets as they were read. */
  lemma InheritanceFromTexts(orig: Presets, files: Files)
    requires WellNamed(orig)
    ensures AllAccepted(orig, files) <==> Inheritable(orig, files)
  {
    InheritanceVerdict(orig, files);
    ParentsInReach(orig, files);
    NoEmptyKeys(orig);
    DemandsMet(orig, files);
  }

  lemma NoEmptyKeys(orig: Presets)
    ensures (forall n | n in orig :: BeforeInheritOk(orig[n])) <==> forall n | n in orig :: "" !in orig[n].environment
  {
  }

  lemma DemandsMet(orig: Presets, files: Files)
    requires WellNamed(orig)
    ensures (forall n | n in orig :: AfterInheritOk(Resolve(orig, n, {}), VersionOf(files, orig[n]))) <==>
            forall n | n in orig :: MeetsDemands(orig, files, n)
  {
    forall n | n in orig
      ensures AfterInheritOk(Resolve(orig, n, {}), VersionOf(files, orig[n])) <==> MeetsDemands(orig, files, n)
    {
      LastCheckFromTexts(orig, files, n);
    }
  }

  lemma ParentsInReach(orig: Presets, files: Files)
    ensures ParentsAvailable(orig, files) <==>
            forall n, k | n in orig && 0 <= k < |orig[n].inherits| :: ParentInReach(orig, files, n, k)
  {
    forall n, k | n in orig && 0 <= k < |orig[n].inherits|
      ensures ParentAvailable(orig, files, n, k) <==> ParentInReach(orig, files, n, k)
    {
    }
  }

  /** The value of slot s in the first of n's first k parents whose final preset has one. */
  ghost function FirstParentValue(orig: Presets, final: Presets, n: string, k: nat, s: Slot): Option<Value>
    requires n in orig && k <= |orig[n].inherits|
  {
    if k == 0 then None else
    var p := orig[n].inherits[k - 1];
    OrElse(FirstParentValue(orig, final, n, k - 1, s), if p in final then Get(final[p], s) else None)
  }

  /**
    The inheritance equation over the final presets alone: a slot of a preset
    holds its original value if it had one, else what its first parent that has
    a value ends up with.
   */
  lemma InheritanceEquation(orig: Presets, files: Files, final: Presets, n: string, s: Slot)
    requires WellNamed(orig) && AllAccepted(orig, files) && n in orig && final.Keys == orig.Keys
    requires forall m | m in orig :: final[m] == Resolve(orig, m, {})
    ensures Get(final[n], s) == OrElse(Get(orig[n], s), FirstParentValue(orig, final, n, |orig[n].inherits|, s))
  {
    assert Accepts(orig, files, n, {});
    assert {} + {n} == {n};
    FirstParentIsLookup(orig, files, final, n, |orig[n].inherits|, s);
    ResolvedSlotFrom(orig, n, |orig[n].inherits|, s, {} + {n});
  }

  lemma {:induction false} FirstParentIsLookup(
      orig: Presets, files: Files, final: Presets, n: string, k: nat, s: Slot)
    requires WellNamed(orig) && n in orig && k <= |orig[n].inherits| && final.Keys == orig.Keys
    requires forall m | m in orig :: final[m] == Resolve(orig, m, {})
    requires AcceptsParents(orig, files, n, k, {n})
    ensures FirstParentValue(orig, final, n, k, s) == LookupParents(orig, n, k, SlotOf(s), {n})
  {
    if k > 0 {
      FirstParentIsLookup(orig, files, final, n, k - 1, s);
      var p := orig[n].inherits[k - 1];
      SmallerPath(orig, files, p, {n}, {});
      ResolvedSlot(orig, p, s, {n});
    }
  }

  // ------------------------------------------------- fields that stay behind

  /** The fields of configure and package presets that VisitPresetInherit does not mention. */
  datatype OwnField =
    | OwnDebugOutput | OwnDebugTryCompile | OwnDebugFind
    | OwnTraceMode | OwnTraceFormat | OwnTraceSource | OwnTraceRedirect
    | OwnConfigFile

  function GetOwn(p: Configure, o: OwnField): Option<Value> {
    match o
    case OwnDebugOutput => FlagOf(p.debugOutput)
    case OwnDebugTryCompile => FlagOf(p.debugTryCompile)
    case OwnDebugFind => FlagOf(p.debugFind)
    case OwnTraceMode => NumberOf(p.traceMode)
    case OwnTraceFormat => NumberOf(p.traceFormat)
    case OwnTraceSource => ListOf(p.traceSource)
    case OwnTraceRedirect => TextOf(p.traceRedirect)
    case OwnConfigFile => None
  }

  function OwnOf(o: OwnField): Getter {
    (p: Preset) =>
      if p.fields.ForConfigure? then GetOwn(p.fields.configure, o)
      else if p.fields.ForPackage? && o.OwnConfigFile? then TextOf(p.fields.package.configFile)
      else None
  }

  /** Fields that no parent passes on keep their own value, whatever the parents say. */
  lemma {:induction false} OwnFieldsStay(orig: Presets, n: string, o: OwnField, path: set<string>)
    requires n in orig
    ensures OwnOf(o)(Resolve(orig, n, path)) == OwnOf(o)(orig[n])
  {
    if n !in path {
      PathShrinks(orig.Keys, n, path);
      OwnFieldsStayFrom(orig, n, |orig[n].inherits|, o, path + {n});
    }
  }

  lemma {:induction false} OwnFieldsStayFrom(orig: Presets, n: string, k: nat, o: OwnField, path: set<string>)
    requires n in orig && k <= |orig[n].inherits|
    ensures OwnOf(o)(ResolveFrom(orig, n, k, path)) == OwnOf(o)(orig[n])
  {
    if k > 0 {
      OwnFieldsStayFrom(orig, n, k - 1, o, path);
      var p := orig[n].inherits[k - 1];
      if p in orig {
        OwnMerge(ResolveFrom(orig, n, k - 1, path), Resolve(orig, p, path), o);
      }
    }
  }

  lemma OwnMerge(p: Preset, parent: Preset, o: OwnField)
    ensures OwnOf(o)(Merge(p, parent)) == OwnOf(o)(p)
  {
  }

  /** A preset that n inherits from, directly or not, says something. */
  ghost predicate AncestorHas(orig: Presets, n: string, get: Getter) {
    exists m :: ReachesPlus(InheritsRel(orig), n, m) && m in orig && get(orig[m]).Some?
  }

  /** A value found among the parents comes from an ancestor. */
  lemma {:induction false} FoundInAncestor(orig: Presets, n: string, k: nat, get: Getter, path: set<string>)
    requires n in orig && k <= |orig[n].inherits| && LookupParents(orig, n, k, get, path).Some?
    ensures AncestorHas(orig, n, get)
    decreases |orig.Keys - path|, 2, k
  {
    if LookupParents(orig, n, k - 1, get, path).Some? {
      FoundInAncestor(orig, n, k - 1, get, path);
    } else {
      var p := orig[n].inherits[k - 1];
      assert Inherits(orig, n, p);
      ReachesSelf(InheritsRel(orig), p);
      assert ReachesPlus(InheritsRel(orig), n, p);
      if get(orig[p]).None? {
        PathShrinks(orig.Keys, p, path);
        FoundInAncestor(orig, p, |orig[p].inherits|, get, path + {p});
        var m :| ReachesPlus(InheritsRel(orig), p, m) && m in orig && get(orig[m]).Some?;
        var x :| Inherits(orig, p, x) && Reaches(InheritsRel(orig), x, m);
        EdgeThenReaches(InheritsRel(orig), p, x, m);
      }
    }
  }

  /** Along any chain of parents from an accepted preset, a value is found. */
  lemma {:induction false} FoundAlong(
      orig: Presets, files: Files, n: string, get: Getter, path: set<string>, p: seq<string>)
    requires n in orig && Accepts(orig, files, n, path)
    requires p != [] && IsPath(InheritsRel(orig), p, n, p[|p| - 1])
    requires p[|p| - 1] in orig && get(orig[p[|p| - 1]]).Some?
    ensures Lookup(orig, n, get, path).Some?
    ensures |p| > 1 ==> LookupParents(orig, n, |orig[n].inherits|, get, path + {n}).Some?
    decreases |p|
  {
    if |p| > 1 {
      assert Inherits(orig, p[0], p[1]);
      var j :| 0 <= j < |orig[n].inherits| && orig[n].inherits[j] == p[1];
      AcceptsParent(orig, files, n, |orig[n].inherits|, j, path + {n});
      FoundAlong(orig, files, p[1], get, path + {n}, p[1..]);
      FoundLater(orig, n, j + 1, |orig[n].inherits|, get, path + {n});
    }
  }

  lemma {:induction false} FoundLater(orig: Presets, n: string, j: nat, k: nat, get: Getter, path: set<string>)
    requires n in orig && j <= k <= |orig[n].inherits| && LookupParents(orig, n, j, get, path).Some?
    ensures LookupParents(orig, n, k, get, path).Some?
    decreases k
  {
    if j < k { FoundLater(orig, n, j, k - 1, get, path); }
  }

  /** Inheriting is to give a value exactly when the preset or one of its ancestors has one. */
  lemma FoundWhenPresent(orig: Presets, files: Files, n: string, get: Getter)
    requires n in orig && Accepts(orig, files, n, {})
    ensures Lookup(orig, n, get, {}).Some? <==> get(orig[n]).Some? || AncestorHas(orig, n, get)
  {
    if LookupParents(orig, n, |orig[n].inherits|, get, {} + {n}).Some? {
      FoundInAncestor(orig, n, |orig[n].inherits|, get, {} + {n});
    }
    if AncestorHas(orig, n, get) {
      var m :| ReachesPlus(InheritsRel(orig), n, m) && m in orig && get(orig[m]).Some?;
      var p := PathOfReachesPlus(InheritsRel(orig), n, m);
      FoundAlong(orig, files, n, get, {}, p);
    }
  }

  /**
    A field that stays behind ends up with the value that the documentation of
    inherits promises exactly when the preset sets it or none of its ancestors does.
   */
  lemma OwnFieldAsDocumented(orig: Presets, files: Files, n: string, o: OwnField)
    requires n in orig && Accepts(orig, files, n, {})
    ensures OwnOf(o)(Resolve(orig, n, {})) == Lookup(orig, n, OwnOf(o), {}) <==>
            OwnOf(o)(orig[n]).Some? || !AncestorHas(orig, n, OwnOf(o))
  {
    OwnFieldsStay(orig, n, o, {});
    FoundWhenPresent(orig, files, n, OwnOf(o));
  }

  // -------------------------------------------------------- the union of tests

  /** useUnion, where a test preset sets it. */
  function UnionOf(): Getter {
    (p: Preset) =>
      if p.fields.ForTest? then SetUnion(GetGroup(IncludeOf(p.fields.test.filter), GetInclude, IncludeUnion)) else None
  }

  /** Of what an include group says about useUnion, the value if it is set. */
  function SetUnion(v: Option<Value>): Option<Value> {
    if v.Some? && v.value.Union? then FlagOf(v.value.useUnion) else None
  }

  lemma UnionIsSlot(p: Preset)
    ensures UnionOf()(p) == SetUnion(Get(p, IncludeUnion))
    ensures Get(p, IncludeUnion).Some? ==> Get(p, IncludeUnion).value.Union?
  {
  }

  /** As long as the first include group that is met sets useUnion, it is the first useUnion that is met. */
  ghost predicate UnionAgrees(slot: Option<Value>, union: Option<Value>) {
    && (slot.None? ==> union.None?)
    && (slot.Some? ==> slot.value.Union? && (slot.value.useUnion.Some? ==> union == FlagOf(slot.value.useUnion)))
  }

  lemma {:induction false} UnionFirst(orig: Presets, n: string, path: set<string>)
    requires n in orig
    ensures UnionAgrees(Lookup(orig, n, SlotOf(IncludeUnion), path), Lookup(orig, n, UnionOf(), path))
    decreases |orig.Keys - path|, 1, 0
  {
    UnionIsSlot(orig[n]);
    if n !in path {
      PathShrinks(orig.Keys, n, path);
      UnionFirstParent(orig, n, |orig[n].inherits|, path + {n});
    }
  }

  lemma {:induction false} UnionFirstParent(orig: Presets, n: string, k: nat, path: set<string>)
    requires n in orig && k <= |orig[n].inherits|
    ensures UnionAgrees(LookupParents(orig, n, k, SlotOf(IncludeUnion), path),
                        LookupParents(orig, n, k, UnionOf(), path))
    decreases |orig.Keys - path|, 2, k
  {
    if k > 0 {
      UnionFirstParent(orig, n, k - 1, path);
      var p := orig[n].inherits[k - 1];
      if p in orig { UnionFirst(orig, p, path); }
    }
  }

  /**
    useUnion of a test preset is as documented exactly when the first preset with
    an include group, the preset itself first and then its ancestors in order, sets
    it, or there is no such group, or neither the preset nor an ancestor sets it.
   */
  lemma UseUnionAsDocumented(orig: Presets, files: Files, n: string)
    requires n in orig && WellNamed(orig) && Accepts(orig, files, n, {})
    ensures UnionOf()(Resolve(orig, n, {})) == Lookup(orig, n, UnionOf(), {}) <==>
            || Lookup(orig, n, SlotOf(IncludeUnion), {}) != Some(Union(None))
            || (UnionOf()(orig[n]).None? && !AncestorHas(orig, n, UnionOf()))
  {
    ResolvedSlot(orig, n, IncludeUnion, {});
    UnionIsSlot(Resolve(orig, n, {}));
    UnionFirst(orig, n, {});
    FoundWhenPresent(orig, files, n, UnionOf());
  }

  // ---------------------------------------------------------- a pair of presets

  const ONE_FILE := Files(map[0 := {0}], map[0 := 7])

  function Parent(fields: Fields): Preset {
    Preset("p", [], true, 0, map[], fields)
  }

  function Child(fields: Fields): Preset {
    Preset("c", ["p"], true, 0, map[], fields)
  }

  function Pair(parent: Fields, child: Fields): Presets {
    map["p" := Parent(parent), "c" := Child(child)]
  }

  lemma ParentOfPair(parent: Fields, child: Fields, get: Getter, path: set<string>)
    requires "p" !in path
    ensures var orig := Pair(parent, child);
            && Resolve(orig, "p", path) == orig["p"] && Accepts(orig, ONE_FILE, "p", path)
            && Lookup(orig, "p", get, path) == get(orig["p"])
  {
    assert ResolveFrom(Pair(parent, child), "p", 0, path + {"p"}) == Parent(parent);
  }

  /** Two hidden presets of a kind, one the only parent of the other: accepted, the parent merged into the child. */
  lemma PairAccepted(parent: Fields, child: Fields, get: Getter)
    requires SameKind(Parent(parent), Child(child))
    ensures var orig := Pair(parent, child);
            && WellNamed(orig) && AllAccepted(orig, ONE_FILE)
            && Resolve(orig, "c", {}) == Merge(Child(child), Parent(parent))
            && Lookup(orig, "c", get, {}) == OrElse(get(orig["c"]), get(orig["p"]))
  {
    var orig, path := Pair(parent, child), {} + {"c"};
    ParentOfPair(parent, child, get, {});
    ParentOfPair(parent, child, get, path);
    assert ResolveFrom(orig, "c", 0, path) == Child(child);
    assert Resolve(orig, "c", {}) == ResolveFrom(orig, "c", 1, path);
    assert AcceptsParents(orig, ONE_FILE, "c", 0, path) && ParentAvailable(orig, ONE_FILE, "c", 0);
    assert AcceptsParents(orig, ONE_FILE, "c", 1, path);
    assert LookupParents(orig, "c", 0, get, path) == None;
    assert LookupParents(orig, "c", 1, get, path) == get(orig["p"]);
  }

  /** A configure preset whose only parent redirects the trace: the setting is not inherited. */
  lemma TraceRedirectIsLost()
    ensures var own := OwnOf(OwnTraceRedirect);
            var orig := Pair(ForConfigure(BARE_CONFIGURE.(traceRedirect := "log")), ForConfigure(BARE_CONFIGURE));
            && WellNamed(orig) && AllAccepted(orig, ONE_FILE)
            && own(Resolve(orig, "c", {})) == None && Lookup(orig, "c", own, {}) == Some(Text("log"))
  {
    PairAccepted(ForConfigure(BARE_CONFIGURE.(traceRedirect := "log")), ForConfigure(BARE_CONFIGURE),
                 OwnOf(OwnTraceRedirect));
  }

  /** A package preset whose only parent names a configuration file: it is not inherited. */
  lemma ConfigFileIsLost()
    ensures var own := OwnOf(OwnConfigFile);
            var orig := Pair(ForPackage(BARE_PACKAGE.(configFile := "cpack.cmake")), ForPackage(BARE_PACKAGE));
            && WellNamed(orig) && AllAccepted(orig, ONE_FILE)
            && own(Resolve(orig, "c", {})) == None && Lookup(orig, "c", own, {}) == Some(Text("cpack.cmake"))
  {
    PairAccepted(ForPackage(BARE_PACKAGE.(configFile := "cpack.cmake")), ForPackage(BARE_PACKAGE),
               OwnOf(OwnConfigFile));
  }

  function Including(name: string, useUnion: Option<bool>): Fields {
    ForTest(BARE_TEST.(filter := Some(Filter(Some(Include(name, "", None, useUnion)), None))))
  }

  /** A test preset with an include group of its own does not inherit useUnion. */
  lemma UseUnionIsLost()
    ensures var orig := Pair(Including("a", Some(true)), Including("b", None));
            && WellNamed(orig) && AllAccepted(orig, ONE_FILE)
            && UnionOf()(Resolve(orig, "c", {})) == None && Lookup(orig, "c", UnionOf(), {}) == Some(Flag(true))
  {
    var parent, child := Including("a", Some(true)), Including("b", None);
    PairAccepted(parent, child, UnionOf());
    IncludingUnion(Parent(parent), "a", Some(true));
    IncludingUnion(Child(child), "b", None);
    MergeSlot(Child(child), Parent(parent), IncludeUnion);
    UnionIsSlot(Merge(Child(child), Parent(parent)));
  }

  lemma IncludingUnion(p: Preset, name: string, useUnion: Option<bool>)
    requires p.fields == Including(name, useUnion)
    ensures Get(p, IncludeUnion) == Some(Union(useUnion)) && UnionOf()(p) == FlagOf(useUnion)
  {
  }
}
