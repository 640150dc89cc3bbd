/**
  Conditions of presets (cmCMakePresetsGraph): a null condition enables a preset
  and is not inherited.  A visit removes the null marker, so that a later visit of
  the same preset no longer sees it.  This module says when the conditions are
  nevertheless as documented.
 */
module PresetConditions {
  import opened CycleCheck
  import opened Options
  import opened PresetFields
  import opened PresetInheritance

  // ---------------------------------------------------- what is documented

  /** The condition that n is to have: its own, none if that is null, else the first one among its parents. */
  ghost function Documented(orig: Presets, asRead: Conditions, n: string, path: set<string>): Option<Condition>
    requires n in orig
    decreases |orig.Keys - path|, 1, 0
  {
    if n in asRead then (if asRead[n].Null? then None else Some(asRead[n]))
    else if n in path then None
    else
      PathShrinks(orig.Keys, n, path);
      FromParents(orig, asRead, n, |orig[n].inherits|, path + {n})
  }

  ghost function FromParents(orig: Presets, asRead: Conditions, n: string, k: nat, path: set<string>)
    : Option<Condition>
    requires n in orig && k <= |orig[n].inherits|
    decreases |orig.Keys - path|, 2, k
  {
    if k == 0 then None else
    var p := orig[n].inherits[k - 1];
    OrElse(FromParents(orig, asRead, n, k - 1, path), if p in orig then Documented(orig, asRead, p, path) else None)
  }

  ghost predicate HasChild(orig: Presets, n: string) {
    exists m :: Inherits(orig, m, n)
  }

  /** n says null, although its parents have a condition, and n is a parent itself. */
  ghost predicate NullBetween(orig: Presets, asRead: Conditions, n: string) {
    && n in orig && ConditionOf(asRead, n) == Some(Null) && HasChild(orig, n)
    && FromParents(orig, asRead, n, |orig[n].inherits|, {n}).Some?
  }

  /** For an accepted preset it does not matter what is in progress. */
  lemma {:induction false} DocumentedAnywhere(
      orig: Presets, files: Files, asRead: Conditions, n: string, path: set<string>, path': set<string>)
    requires n in orig && path' <= path && Accepts(orig, files, n, path)
    ensures Documented(orig, asRead, n, path') == Documented(orig, asRead, n, path)
    ensures FromParents(orig, asRead, n, |orig[n].inherits|, path' + {n})
            == FromParents(orig, asRead, n, |orig[n].inherits|, path + {n})
    decreases |orig.Keys - path|, 1, 0
  {
    PathShrinks(orig.Keys, n, path);
    ParentsAnywhere(orig, files, asRead, n, |orig[n].inherits|, path + {n}, path' + {n});
  }

  lemma {:induction false} ParentsAnywhere(
      orig: Presets, files: Files, asRead: Conditions, n: string, k: nat, path: set<string>, path': set<string>)
    requires n in orig && k <= |orig[n].inherits| && path' <= path && AcceptsParents(orig, files, n, k, path)
    ensures FromParents(orig, asRead, n, k, path') == FromParents(orig, asRead, n, k, path)
    decreases |orig.Keys - path|, 2, k
  {
    if k > 0 {
      ParentsAnywhere(orig, files, asRead, n, k - 1, path, path');
      DocumentedAnywhere(orig, files, asRead, orig[n].inherits[k - 1], path, path');
    }
  }

  // ------------------------------------------ without a null between two presets

  /** Every preset not in progress has the condition that was read or the documented one. */
  ghost predicate ReadOrDocumented(orig: Presets, asRead: Conditions, now: Conditions, path: set<string>) {
    forall m | m in orig && m !in path ::
      ConditionOf(now, m) == ConditionOf(asRead, m) || ConditionOf(now, m) == Documented(orig, asRead, m, {})
  }

  /** A visit of n leaves alone what is in progress or is no parent, and what is as documented. */
  ghost predicate KeepsOthers(
      orig: Presets, asRead: Conditions, before: Conditions, now: Conditions, n: string, path: set<string>)
  {
    && (forall m | m in orig && m != n && (m in path || !HasChild(orig, m)) ::
          ConditionOf(now, m) == ConditionOf(before, m))
    && (forall m | m in orig && m != n && ConditionOf(before, m) == Documented(orig, asRead, m, {}) ::
          ConditionOf(now, m) == Documented(orig, asRead, m, {}))
  }

  /** Without a null in between, a visit gives a preset its documented condition. */
  lemma {:induction false} VisitGives(
      orig: Presets, files: Files, asRead: Conditions, now: Conditions, n: string, path: set<string>)
    requires n in orig && Accepts(orig, files, n, path)
    requires forall m :: !NullBetween(orig, asRead, m)
    requires ReadOrDocumented(orig, asRead, now, path)
    requires HasChild(orig, n) || ConditionOf(now, n) == ConditionOf(asRead, n)
    ensures var after := Visited(orig, now, n, path);
            && ConditionOf(after, n) == Documented(orig, asRead, n, {})
            && ReadOrDocumented(orig, asRead, after, path)
            && KeepsOthers(orig, asRead, now, after, n, path)
    decreases |orig.Keys - path|, 1, 0
  {
    PathShrinks(orig.Keys, n, path);
    ParentsGive(orig, files, asRead, now, n, |orig[n].inherits|, path + {n});
    DocumentedAnywhere(orig, files, asRead, n, path, {});
    var filled := ParentsVisited(orig, now, n, |orig[n].inherits|, path + {n});
    OwnAfterVisit(orig, asRead, now, filled, n);
    OthersAfterVisit(orig, asRead, now, filled, n, path);
  }

  lemma OwnAfterVisit(orig: Presets, asRead: Conditions, now: Conditions, filled: Conditions, n: string)
    requires n in orig && !NullBetween(orig, asRead, n)
    requires ConditionOf(now, n) == ConditionOf(asRead, n)
             || (HasChild(orig, n) && ConditionOf(now, n) == Documented(orig, asRead, n, {}))
    requires ConditionOf(filled, n)
             == OrElse(ConditionOf(now, n), FromParents(orig, asRead, n, |orig[n].inherits|, {} + {n}))
    ensures ConditionOf(EraseNull(filled, n), n) == Documented(orig, asRead, n, {})
  {
    assert {} + {n} == {n};
    NeverNull(orig, asRead, n, |orig[n].inherits|, {n});
  }

  /** Null is never inherited. */
  lemma {:induction false} NeverNull(orig: Presets, asRead: Conditions, n: string, k: nat, path: set<string>)
    requires n in orig && k <= |orig[n].inherits|
    ensures FromParents(orig, asRead, n, k, path) != Some(Null)
    decreases |orig.Keys - path|, 2, k
  {
    if k > 0 {
      var p := orig[n].inherits[k - 1];
      NeverNull(orig, asRead, n, k - 1, path);
      if p in orig && p !in path {
        PathShrinks(orig.Keys, p, path);
        NeverNull(orig, asRead, p, |orig[p].inherits|, path + {p});
      }
    }
  }

  lemma OthersAfterVisit(
      orig: Presets, asRead: Conditions, now: Conditions, filled: Conditions, n: string, path: set<string>)
    requires n in orig
    requires ReadOrDocumented(orig, asRead, filled, path + {n})
    requires KeepsOthers(orig, asRead, now, filled, n, path + {n})
    requires ConditionOf(EraseNull(filled, n), n) == Documented(orig, asRead, n, {})
    ensures ReadOrDocumented(orig, asRead, EraseNull(filled, n), path)
    ensures KeepsOthers(orig, asRead, now, EraseNull(filled, n), n, path)
  {
    var after := EraseNull(filled, n);
    assert forall m | m != n :: ConditionOf(after, m) == ConditionOf(filled, m);
  }

  lemma {:induction false} ParentsGive(
      orig: Presets, files: Files, asRead: Conditions, now: Conditions, n: string, k: nat, path: set<string>)
    requires n in orig && n in path && k <= |orig[n].inherits| && AcceptsParents(orig, files, n, k, path)
    requires forall m :: !NullBetween(orig, asRead, m)
    requires ReadOrDocumented(orig, asRead, now, path)
    ensures var after := ParentsVisited(orig, now, n, k, path);
            && ConditionOf(after, n) == OrElse(ConditionOf(now, n), FromParents(orig, asRead, n, k, path))
            && ReadOrDocumented(orig, asRead, after, path)
            && KeepsOthers(orig, asRead, now, after, n, path)
    decreases |orig.Keys - path|, 2, k
  {
    if k > 0 {
      var p, before := orig[n].inherits[k - 1], ParentsVisited(orig, now, n, k - 1, path);
      ParentsGive(orig, files, asRead, now, n, k - 1, path);
      assert Inherits(orig, n, p);
      VisitGives(orig, files, asRead, before, p, path);
      DocumentedAnywhere(orig, files, asRead, p, path, {});
    }
  }

  /** Without a null in between: what the walk over all presets leaves. */
  lemma {:induction false} WalkGives(orig: Presets, files: Files, asRead: Conditions, order: seq<string>)
    requires AllAccepted(orig, files) && forall m :: !NullBetween(orig, asRead, m)
    requires forall m | m in order :: m in orig
    requires forall i, j | 0 <= i < j < |order| :: order[i] != order[j]
    ensures var after := AllVisited(orig, asRead, order);
            && ReadOrDocumented(orig, asRead, after, {})
            && (forall m | m in order :: ConditionOf(after, m) == Documented(orig, asRead, m, {}))
            && (forall m | m in orig && m !in order && !HasChild(orig, m) ::
                  ConditionOf(after, m) == ConditionOf(asRead, m))
  {
    if order != [] {
      var k := |order| - 1;
      assert forall m | m in order[..k] :: m in order;
      WalkGives(orig, files, asRead, order[..k]);
      assert Accepts(orig, files, order[k], {}) && order[k] !in order[..k];
      VisitGives(orig, files, asRead, AllVisited(orig, asRead, order[..k]), order[k], {});
      assert forall m | m in order :: m in order[..k] || m == order[k];
    }
  }

  // --------------------------------------------- with a null between two presets

  /** No condition is taken back, and no null marker comes back. */
  ghost predicate Forward(before: Conditions, now: Conditions) {
    && (forall m | m in before && before[m].Given? :: m in now && now[m] == before[m])
    && (forall m | ConditionOf(now, m) == Some(Null) :: ConditionOf(before, m) == Some(Null))
  }

  /**
    What one visit of m does for certain: the null marker is gone, a documented
    condition is there, and so is one of the parents' if the marker was gone before.
   */
  ghost predicate Forced(orig: Presets, asRead: Conditions, before: Conditions, now: Conditions, m: string)
    requires m in orig
  {
    && ConditionOf(now, m) != Some(Null)
    && (Documented(orig, asRead, m, {}).Some? ==> m in now)
    && (ConditionOf(before, m) != Some(Null) && FromParents(orig, asRead, m, |orig[m].inherits|, {m}).Some?
        ==> m in now)
  }

  lemma ForcedStays(orig: Presets, asRead: Conditions, a: Conditions, b: Conditions, c: Conditions, d: Conditions,
                    m: string)
    requires m in orig && Forward(a, b) && Forced(orig, asRead, b, c, m) && Forward(c, d)
    ensures Forced(orig, asRead, a, d, m)
  {
    assert ConditionOf(b, m) == Some(Null) ==> ConditionOf(a, m) == Some(Null);
    assert ConditionOf(d, m) == Some(Null) ==> ConditionOf(c, m) == Some(Null);
  }

  lemma ForwardOn(a: Conditions, b: Conditions, c: Conditions)
    requires Forward(a, b) && Forward(b, c)
    ensures Forward(a, c)
  {
    forall m | ConditionOf(c, m) == Some(Null)
      ensures ConditionOf(a, m) == Some(Null)
    {
      assert ConditionOf(b, m) == Some(Null);
    }
  }

  /** A visit of n forces n and every parent of n. */
  lemma {:induction false} VisitForces(
      orig: Presets, files: Files, asRead: Conditions, now: Conditions, n: string, path: set<string>)
    requires n in orig && Accepts(orig, files, n, path) && Forward(asRead, now)
    ensures var after := Visited(orig, now, n, path);
            && Forward(now, after) && Forced(orig, asRead, now, after, n)
            && forall p | p in orig[n].inherits && p in orig :: Forced(orig, asRead, now, after, p)
    decreases |orig.Keys - path|, 1, 0
  {
    PathShrinks(orig.Keys, n, path);
    ParentsForce(orig, files, asRead, now, n, |orig[n].inherits|, path + {n});
    DocumentedAnywhere(orig, files, asRead, n, path, {});
    var filled := ParentsVisited(orig, now, n, |orig[n].inherits|, path + {n});
    OwnForced(orig, asRead, now, filled, n);
    forall p | p in orig[n].inherits && p in orig
      ensures Forced(orig, asRead, now, EraseNull(filled, n), p)
    {
      var j :| 0 <= j < |orig[n].inherits| && orig[n].inherits[j] == p;
      ForcedStays(orig, asRead, now, now, filled, EraseNull(filled, n), p);
    }
  }

  lemma OwnForced(orig: Presets, asRead: Conditions, now: Conditions, filled: Conditions, n: string)
    requires n in orig && Forward(asRead, now) && Forward(now, filled)
    requires ConditionOf(now, n) != Some(Null) && FromParents(orig, asRead, n, |orig[n].inherits|, {} + {n}).Some?
             ==> n in filled
    ensures Forward(now, EraseNull(filled, n)) && Forward(filled, EraseNull(filled, n))
    ensures Forced(orig, asRead, now, EraseNull(filled, n), n)
  {
    assert {} + {n} == {n};
    assert ConditionOf(filled, n) == Some(Null) ==> ConditionOf(now, n) == Some(Null);
    assert ConditionOf(now, n) == Some(Null) ==> ConditionOf(asRead, n) == Some(Null);
  }

  lemma {:induction false} ParentsForce(
      orig: Presets, files: Files, asRead: Conditions, now: Conditions, n: string, k: nat, path: set<string>)
    requires n in orig && k <= |orig[n].inherits| && AcceptsParents(orig, files, n, k, path) && Forward(asRead, now)
    ensures var after := ParentsVisited(orig, now, n, k, path);
            && Forward(now, after)
            && (ConditionOf(now, n) != Some(Null) && FromParents(orig, asRead, n, k, path).Some? ==> n in after)
            && forall j | 0 <= j < k && orig[n].inherits[j] in orig ::
                 Forced(orig, asRead, now, after, orig[n].inherits[j])
    decreases |orig.Keys - path|, 2, k
  {
    if k > 0 {
      var p, before := orig[n].inherits[k - 1], ParentsVisited(orig, now, n, k - 1, path);
      ParentsForce(orig, files, asRead, now, n, k - 1, path);
      ForwardOn(asRead, now, before);
      VisitForces(orig, files, asRead, before, p, path);
      DocumentedAnywhere(orig, files, asRead, p, path, {});
      assert ConditionOf(before, n) == Some(Null) ==> ConditionOf(now, n) == Some(Null);
      ParentForced(orig, asRead, now, before, Visited(orig, before, p, path), n, k);
    }
  }

  /** After the visit of one more parent and what n takes from it. */
  lemma ParentForced(
      orig: Presets, asRead: Conditions, now: Conditions, before: Conditions, visited: Conditions, n: string, k: nat)
    requires n in orig && 0 < k <= |orig[n].inherits| && orig[n].inherits[k - 1] in orig
    requires Forward(now, before) && Forward(before, visited)
    requires Forced(orig, asRead, before, visited, orig[n].inherits[k - 1])
    requires forall j | 0 <= j < k - 1 && orig[n].inherits[j] in orig ::
               Forced(orig, asRead, now, before, orig[n].inherits[j])
    ensures var after := InheritCondition(visited, n, orig[n].inherits[k - 1]);
            && Forward(now, after)
            && forall j | 0 <= j < k && orig[n].inherits[j] in orig ::
                 Forced(orig, asRead, now, after, orig[n].inherits[j])
  {
    var p := orig[n].inherits[k - 1];
    var after := InheritCondition(visited, n, p);
    assert ConditionOf(visited, p) != Some(Null);
    assert Forward(visited, after);
    ForwardOn(now, before, visited);
    ForwardOn(now, visited, after);
    ForwardOn(before, visited, after);
    forall j | 0 <= j < k && orig[n].inherits[j] in orig
      ensures Forced(orig, asRead, now, after, orig[n].inherits[j])
    {
      var q := orig[n].inherits[j];
      if j == k - 1 {
        ForcedStays(orig, asRead, now, before, visited, after, q);
      } else {
        ForcedStays(orig, asRead, now, now, before, after, q);
      }
    }
  }

  /** A visit of x is one of n too when x is n or a child of n. */
  ghost predicate Visits(orig: Presets, x: string, n: string) {
    x in orig && (x == n || n in orig[x].inherits)
  }

  /** Once visited, n says null no more; visited twice, it has a condition. */
  ghost predicate TwiceGives(orig: Presets, order: seq<string>, now: Conditions, n: string) {
    && (forall i | 0 <= i < |order| && Visits(orig, order[i], n) :: ConditionOf(now, n) != Some(Null))
    && (forall i, j | 0 <= i < j < |order| && Visits(orig, order[i], n) && Visits(orig, order[j], n) :: n in now)
  }

  /** A preset whose parents have a condition gets one when it is visited twice. */
  lemma {:induction false} VisitedTwice(
      orig: Presets, files: Files, asRead: Conditions, order: seq<string>, n: string)
    requires AllAccepted(orig, files) && n in orig && forall m | m in order :: m in orig
    requires FromParents(orig, asRead, n, |orig[n].inherits|, {n}).Some?
    ensures var after := AllVisited(orig, asRead, order); Forward(asRead, after) && TwiceGives(orig, order, after, n)
  {
    if order != [] {
      var k := |order| - 1;
      assert forall m | m in order[..k] :: m in order;
      var before := AllVisited(orig, asRead, order[..k]);
      VisitedTwice(orig, files, asRead, order[..k], n);
      assert Accepts(orig, files, order[k], {});
      VisitForces(orig, files, asRead, before, order[k], {});
      ForwardOn(asRead, before, Visited(orig, before, order[k], {}));
      VisitedOnceMore(orig, asRead, before, Visited(orig, before, order[k], {}), order, n);
    }
  }

  lemma VisitedOnceMore(
      orig: Presets, asRead: Conditions, before: Conditions, after: Conditions, order: seq<string>, n: string)
    requires n in orig && order != [] && Forward(before, after)
    requires FromParents(orig, asRead, n, |orig[n].inherits|, {n}).Some?
    requires Visits(orig, order[|order| - 1], n) ==> Forced(orig, asRead, before, after, n)
    requires TwiceGives(orig, order[..|order| - 1], before, n)
    ensures TwiceGives(orig, order, after, n)
  {
    var k := |order| - 1;
    assert ConditionOf(after, n) == Some(Null) ==> ConditionOf(before, n) == Some(Null);
    assert n in before && ConditionOf(before, n) != Some(Null) ==> before[n].Given?;
    assert forall i | 0 <= i < k :: order[..k][i] == order[i];
    if i :| 0 <= i < k && Visits(orig, order[i], n) {
      assert Visits(orig, order[..k][i], n);
    }
    forall i, j | 0 <= i < j < |order| && Visits(orig, order[i], n) && Visits(orig, order[j], n)
      ensures n in after
    {
      assert Visits(orig, order[..k][i], n);
      if j < k { assert Visits(orig, order[..k][j], n); }
    }
  }

  /** A null between two presets is lost in every order: the preset ends up with a condition. */
  lemma NullIsLost(orig: Presets, files: Files, asRead: Conditions, order: seq<string>, n: string)
    requires AllAccepted(orig, files) && Enumerates(order, orig.Keys) && NullBetween(orig, asRead, n)
    ensures Documented(orig, asRead, n, {}) == None
    ensures n in AllVisited(orig, asRead, order) && AllVisited(orig, asRead, order)[n].Given?
  {
    var c :| Inherits(orig, c, n);
    NotOwnParent(orig, files, n);
    var i :| 0 <= i < |order| && order[i] == n;
    var j :| 0 <= j < |order| && order[j] == c;
    assert Visits(orig, order[i], n) && Visits(orig, order[j], n);
    VisitedTwice(orig, files, asRead, order, n);
  }

  lemma NotOwnParent(orig: Presets, files: Files, n: string)
    requires n in orig && Accepts(orig, files, n, {})
    ensures n !in orig[n].inherits
  {
    if n in orig[n].inherits {
      var k :| 0 <= k < |orig[n].inherits| && orig[n].inherits[k] == n;
      AcceptsParent(orig, files, n, |orig[n].inherits|, k, {} + {n});
    }
  }

  /**
    When the conditions are as documented, for every order of visits: exactly when no
    preset says null between a parent that gives a condition and a child.
   */
  lemma ConditionsAsDocumented(orig: Presets, files: Files, asRead: Conditions, order: seq<string>)
    requires AllAccepted(orig, files) && Enumerates(order, orig.Keys)
    ensures (forall n | n in orig ::
               ConditionOf(AllVisited(orig, asRead, order), n) == Documented(orig, asRead, n, {}))
            <==> forall n :: !NullBetween(orig, asRead, n)
  {
    if n :| NullBetween(orig, asRead, n) {
      NullIsLost(orig, files, asRead, order, n);
    } else {
      WalkGives(orig, files, asRead, order);
    }
  }

  // ------------------------------------------------------------- three presets

  const BARE := ForConfigure(BARE_CONFIGURE)
  const THREE := map["p" := Parent(BARE), "c" := Child(BARE), "g" := Preset("g", ["c"], true, 0, map[], BARE)]
  const THREE_CONDITIONS := map["p" := Given(0), "c" := Null]

  lemma ParentAccepted(path: set<string>)
    requires "p" !in path
    ensures Accepts(THREE, ONE_FILE, "p", path)
    ensures Documented(THREE, THREE_CONDITIONS, "p", path) == Some(Given(0))
  {
    assert AcceptsParents(THREE, ONE_FILE, "p", 0, path + {"p"});
    assert ResolveFrom(THREE, "p", 0, path + {"p"}) == THREE["p"];
  }

  /** A hidden preset without an environment is accepted after its only parent. */
  lemma ChildAccepted(n: string, parent: string, path: set<string>)
    requires n in THREE && n !in path && THREE[n].inherits == [parent] && parent in THREE
    requires Accepts(THREE, ONE_FILE, parent, path + {n})
    ensures Accepts(THREE, ONE_FILE, n, path)
  {
    var path' := path + {n};
    assert AcceptsParents(THREE, ONE_FILE, n, 0, path') && ParentAvailable(THREE, ONE_FILE, n, 0);
    assert AcceptsParents(THREE, ONE_FILE, n, 1, path');
    assert ResolveFrom(THREE, n, 0, path') == THREE[n];
    assert Resolve(THREE, n, path) == ResolveFrom(THREE, n, 1, path');
  }

  /** Three accepted presets in a row, the middle one with null: it gets the first one's condition in every order. */
  lemma NullInTheMiddle(order: seq<string>)
    requires Enumerates(order, THREE.Keys)
    ensures AllAccepted(THREE, ONE_FILE)
    ensures Documented(THREE, THREE_CONDITIONS, "c", {}) == None
    ensures "c" in AllVisited(THREE, THREE_CONDITIONS, order)
            && AllVisited(THREE, THREE_CONDITIONS, order)["c"].Given?
  {
    ParentAccepted({});
    ParentAccepted({"c"});
    ParentAccepted({"g"} + {"c"});
    assert {} + {"c"} == {"c"} && {} + {"g"} == {"g"};
    ChildAccepted("c", "p", {});
    ChildAccepted("c", "p", {"g"});
    ChildAccepted("g", "c", {});
    assert FromParents(THREE, THREE_CONDITIONS, "c", 0, {"c"}) == None;
    assert Inherits(THREE, "g", "c");
    assert NullBetween(THREE, THREE_CONDITIONS, "c");
    NullIsLost(THREE, ONE_FILE, THREE_CONDITIONS, order, "c");
  }
}
