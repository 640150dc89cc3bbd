/**
  The worklist of cmake_pkg_config(POPULATE): PopulatePCTarget reads a package
  and everything it requires.  inStack holds the packages still to be read, with
  the requirements collected for them; outStack holds the packages read.  A
  version requirement is checked either when the required package is read or,
  if it was read before, when the requirement is found.
 */
module PkgConfig {
  import opened Options
  import opened Reachability
  import opened Sequences

  datatype Operation = ANY | LT | LT_EQ | EQ | NEQ | GT_EQ | GT

  datatype VersionReq = VersionReq(operation: Operation, version: string)

  datatype Dependency = Dependency(name: string, verReq: VersionReq)

  /** What cmPkgConfigResult says of a package: its version and its public requirements. */
  datatype Package = Package(version: string, requires_: seq<Dependency>)

  /** The version argument of the command, with and without EXACT. */
  datatype RootRequirement = AnyVersion | Exactly(version: string) | Matching(verReq: VersionReq)

  /**
    What the worklist looks up: package files that can be read, providers bound
    by BIND_PC_REQUIRES, versions of foreign targets that exist already, and the
    comparison of versions.
   */
  datatype World = World(
    packages: map<string, Package>,
    providers: map<string, string>,
    targets: map<string, string>,
    checkVersion: (VersionReq, string) -> bool)

  datatype StackEntry = StackEntry(ver: VersionReq, parent: string)

  type PkgStack = map<string, seq<StackEntry>>

  // ------------------------------------------------------------ specification

  /** The requirement is neither provided nor met by an existing target. */
  predicate Unmet(w: World, dep: Dependency) {
    dep.name !in w.providers && dep.name !in w.targets
  }

  ghost predicate Needs(w: World, p: string, q: string) {
    p in w.packages && exists dep :: dep in w.packages[p].requires_ && Unmet(w, dep) && dep.name == q
  }

  ghost function NeedsRel(w: World): (string, string) -> bool {
    (p: string, q: string) => Needs(w, p, q)
  }

  ghost predicate Reached(w: World, root: string, p: string) {
    Reaches(NeedsRel(w), root, p)
  }

  /** An existing target is checked wherever it is required. */
  predicate TargetOk(w: World, dep: Dependency) {
    dep.name !in w.providers && dep.name in w.targets ==> w.checkVersion(dep.verReq, w.targets[dep.name])
  }

  /** A requirement on oneself goes unchecked, except the root's. */
  predicate IsChecked(root: string, p: string, dep: Dependency) {
    dep.name != p || p == root
  }

  /** Everything that the packages reachable from the root must satisfy. */
  ghost predicate Satisfiable(w: World, root: string) {
    root in w.packages && forall p | Reached(w, root, p) :: PackageOk(w, root, p)
  }

  ghost predicate PackageOk(w: World, root: string, p: string) {
    && p in w.packages
    && forall dep | dep in w.packages[p].requires_ ::
         && TargetOk(w, dep)
         && (Unmet(w, dep) && IsChecked(root, p, dep) && dep.name in w.packages ==>
               w.checkVersion(dep.verReq, w.packages[dep.name].version))
  }

  // ---------------------------------------------------------------- invariant

  /** The packages read so far are packages, reached from the root. */
  ghost predicate OutOk(w: World, root: string, out: map<string, Package>) {
    && root in out
    && forall p | p in out :: p in w.packages && out[p] == w.packages[p] && Reached(w, root, p)
  }

  ghost predicate InOk(w: World, root: string, pending: PkgStack, out: map<string, Package>) {
    forall q | q in pending :: Reached(w, root, q) && (q in out ==> q == root)
  }

  /** Every collected requirement is one that a package read so far makes. */
  ghost predicate EntriesOk(w: World, root: string, pending: PkgStack, out: map<string, Package>) {
    forall q, e | q in pending && e in pending[q] ::
      && e.parent in out && Dependency(q, e.ver) in out[e.parent].requires_
      && Unmet(w, Dependency(q, e.ver)) && IsChecked(root, e.parent, Dependency(q, e.ver))
  }

  /** A requirement has been checked, or waits for its package to be read. */
  ghost predicate Handled(
      w: World, root: string, pending: PkgStack, out: map<string, Package>, p: string, dep: Dependency) {
    && TargetOk(w, dep)
    && (Unmet(w, dep) ==> dep.name in out || dep.name in pending)
    && (Unmet(w, dep) && IsChecked(root, p, dep) ==>
          || (dep.name in out && w.checkVersion(dep.verReq, out[dep.name].version))
          || (dep.name in pending && StackEntry(dep.verReq, p) in pending[dep.name]))
  }

  ghost predicate AllHandled(w: World, root: string, pending: PkgStack, out: map<string, Package>) {
    forall p, dep | p in out && dep in out[p].requires_ :: Handled(w, root, pending, out, p, dep)
  }

  ghost predicate Inv(w: World, root: string, pending: PkgStack, out: map<string, Package>) {
    && OutOk(w, root, out) && InOk(w, root, pending, out)
    && EntriesOk(w, root, pending, out) && AllHandled(w, root, pending, out)
  }

  // -------------------------------------------------------------- the program

  /** Nothing is taken off the stack. */
  ghost predicate Keeps(before: PkgStack, after: PkgStack) {
    forall q | q in before :: q in after && forall e | e in before[q] :: e in after[q]
  }

  /** Every requirement that is still open is collected for its package. */
  ghost predicate CollectsAll(
      w: World, name: string, deps: seq<Dependency>, after: PkgStack, out: map<string, Package>) {
    forall dep | dep in deps && Unmet(w, dep) && dep.name !in out ::
      dep.name in after && StackEntry(dep.verReq, name) in after[dep.name]
  }

  ghost predicate IsNewEntry(
      w: World, name: string, deps: seq<Dependency>, out: map<string, Package>, q: string, e: StackEntry) {
    e.parent == name && Dependency(q, e.ver) in deps && Unmet(w, Dependency(q, e.ver)) && q !in out
  }

  /** Nothing else is collected. */
  ghost predicate CollectsOnly(
      w: World, name: string, deps: seq<Dependency>, before: PkgStack, after: PkgStack, out: map<string, Package>)
  {
    && (forall q | q in after ::
          q in before || exists dep :: dep in deps && Unmet(w, dep) && dep.name == q && q !in out)
    && (forall q, e | q in after && e in after[q] ::
          (q in before && e in before[q]) || IsNewEntry(w, name, deps, out, q, e))
  }

  /** What CheckPackageDependencies(name) does to the stack when it succeeds. */
  ghost predicate Queued(
      w: World, name: string, deps: seq<Dependency>, before: PkgStack, after: PkgStack, out: map<string, Package>)
  {
    && Keeps(before, after) && CollectsAll(w, name, deps, after, out)
    && CollectsOnly(w, name, deps, before, after, out)
  }

  /** The entries that name's requirements add to the queue of q, in order. */
  function Added(w: World, name: string, deps: seq<Dependency>, out: map<string, Package>, q: string): seq<StackEntry> {
    if deps == [] then []
    else
      var dep := deps[|deps| - 1];
      Added(w, name, deps[..|deps| - 1], out, q)
      + (if dep.name == q && Unmet(w, dep) && q !in out then [StackEntry(dep.verReq, name)] else [])
  }

  function QueueOf(pending: PkgStack, q: string): seq<StackEntry> {
    if q in pending then pending[q] else []
  }

  /** The queue of q is what it was and the entries added, and exists if it did or if there are any. */
  ghost predicate QueueGrows(before: PkgStack, after: PkgStack, q: string, added: seq<StackEntry>) {
    QueueOf(after, q) == QueueOf(before, q) + added && (q in after <==> q in before || added != [])
  }

  /** Each open requirement is queued once, behind what was queued before. */
  ghost predicate QueuesGrow(
      w: World, name: string, deps: seq<Dependency>, before: PkgStack, after: PkgStack, out: map<string, Package>)
  {
    forall q :: QueueGrows(before, after, q, Added(w, name, deps, out, q))
  }

  lemma QueueGrowsMore(before: PkgStack, after: PkgStack, q: string,
                       added: seq<StackEntry>, name: string, entry: StackEntry)
    requires QueueGrows(before, after, q, added)
    ensures QueueGrows(before, EmplaceBack(after, name, entry), q, added + (if name == q then [entry] else []))
  {
    if name == q {
      Assoc(QueueOf(before, q), added, [entry]);
    } else {
      assert added + [] == added;
    }
  }

  lemma NothingGrows(w: World, name: string, pending: PkgStack, out: map<string, Package>)
    ensures QueuesGrow(w, name, [], pending, pending, out)
  {
  }

  lemma QueuesGrowStep(
      w: World, name: string, deps: seq<Dependency>, k: nat,
      before: PkgStack, after: PkgStack, out: map<string, Package>)
    requires k < |deps| && QueuesGrow(w, name, deps[..k], before, after, out)
    ensures QueuesGrow(w, name, deps[..k + 1], before,
                       if Unmet(w, deps[k]) && deps[k].name !in out
                       then EmplaceBack(after, deps[k].name, StackEntry(deps[k].verReq, name)) else after, out)
  {
    var dep, more := deps[k], deps[..k + 1];
    var after' := if Unmet(w, dep) && dep.name !in out
                  then EmplaceBack(after, dep.name, StackEntry(dep.verReq, name)) else after;
    assert more[..k] == deps[..k];
    forall q
      ensures QueueGrows(before, after', q, Added(w, name, more, out, q))
    {
      var added := Added(w, name, deps[..k], out, q);
      assert QueueGrows(before, after, q, added);
      QueueGrowsMore(before, after, q, added, dep.name, StackEntry(dep.verReq, name));
      assert added + [] == added;
    }
  }

  /** The checks CheckPackageDependencies makes at once. */
  ghost predicate ChecksOk(w: World, deps: seq<Dependency>, out: map<string, Package>) {
    forall dep | dep in deps ::
      TargetOk(w, dep) && (Unmet(w, dep) && dep.name in out ==> w.checkVersion(dep.verReq, out[dep.name].version))
  }

  /** inStack[name].emplace_back(entry). */
  function EmplaceBack(pending: PkgStack, name: string, entry: StackEntry): PkgStack {
    pending[name := (if name in pending then pending[name] else []) + [entry]]
  }

  lemma EmplaceKeeps(before: PkgStack, after: PkgStack, name: string, entry: StackEntry)
    requires Keeps(before, after)
    ensures Keeps(before, EmplaceBack(after, name, entry))
  {
  }

  lemma EmplaceCollects(
      w: World, name: string, deps: seq<Dependency>, dep: Dependency, after: PkgStack, out: map<string, Package>)
    requires CollectsAll(w, name, deps, after, out)
    ensures CollectsAll(w, name, deps + [dep], EmplaceBack(after, dep.name, StackEntry(dep.verReq, name)), out)
  {
    var after' := EmplaceBack(after, dep.name, StackEntry(dep.verReq, name));
    assert StackEntry(dep.verReq, name) in after'[dep.name];
    assert forall d | d in deps + [dep] && d != dep :: d in deps;
  }

  lemma EmplaceOnly(
      w: World, name: string, deps: seq<Dependency>, dep: Dependency,
      before: PkgStack, after: PkgStack, out: map<string, Package>)
    requires CollectsOnly(w, name, deps, before, after, out) && Unmet(w, dep) && dep.name !in out
    ensures CollectsOnly(w, name, deps + [dep], before, EmplaceBack(after, dep.name, StackEntry(dep.verReq, name)), out)
  {
    var entry := StackEntry(dep.verReq, name);
    var after' := EmplaceBack(after, dep.name, entry);
    assert dep in deps + [dep] && forall d | d in deps :: d in deps + [dep];
    forall q, e | q in after' && e in after'[q]
      ensures (q in before && e in before[q]) || IsNewEntry(w, name, deps + [dep], out, q, e)
    {
      assert (q in after && e in after[q]) || (q == dep.name && e == entry);
      assert q in after && e in after[q] ==> (q in before && e in before[q]) || IsNewEntry(w, name, deps, out, q, e);
    }
  }

  lemma QueuedStep(
      w: World, name: string, deps: seq<Dependency>, k: nat,
      before: PkgStack, after: PkgStack, out: map<string, Package>)
    requires k < |deps| && Queued(w, name, deps[..k], before, after, out)
    ensures deps[..k + 1] == deps[..k] + [deps[k]]
    ensures Queued(w, name, deps[..k + 1], before,
                   if Unmet(w, deps[k]) && deps[k].name !in out
                   then EmplaceBack(after, deps[k].name, StackEntry(deps[k].verReq, name)) else after, out)
  {
    var dep := deps[k];
    assert deps[..k + 1] == deps[..k] + [dep];
    if Unmet(w, dep) && dep.name !in out {
      EmplaceKeeps(before, after, dep.name, StackEntry(dep.verReq, name));
      EmplaceCollects(w, name, deps[..k], dep, after, out);
      EmplaceOnly(w, name, deps[..k], dep, before, after, out);
    } else {
      QueuedSkip(w, name, deps[..k], dep, before, after, out);
    }
  }

  lemma QueuedSkip(
      w: World, name: string, deps: seq<Dependency>, dep: Dependency,
      before: PkgStack, after: PkgStack, out: map<string, Package>)
    requires Queued(w, name, deps, before, after, out) && (Unmet(w, dep) ==> dep.name in out)
    ensures Queued(w, name, deps + [dep], before, after, out)
  {
    assert forall d :: d in deps + [dep] <==> d in deps || d == dep;
    assert forall q, e | IsNewEntry(w, name, deps, out, q, e) :: IsNewEntry(w, name, deps + [dep], out, q, e);
  }

  method CheckPackageDependencies(w: World, name: string, pkg: Package, pending: PkgStack, out: map<string, Package>)
    returns (ok: bool, inStack: PkgStack)
    ensures ok <==> ChecksOk(w, pkg.requires_, out)
    ensures ok ==> Queued(w, name, pkg.requires_, pending, inStack, out)
    ensures ok ==> QueuesGrow(w, name, pkg.requires_, pending, inStack, out)
  {
    inStack := pending;
    var deps := pkg.requires_;
    NothingGrows(w, name, pending, out);
    for k := 0 to |deps|
      invariant ChecksOk(w, deps[..k], out)
      invariant Queued(w, name, deps[..k], pending, inStack, out)
      invariant QueuesGrow(w, name, deps[..k], pending, inStack, out)
    {
      var dep := deps[k];
      QueuedStep(w, name, deps, k, pending, inStack, out);
      QueuesGrowStep(w, name, deps, k, pending, inStack, out);
      if dep.name in w.providers {
        continue;
      }
      if dep.name in w.targets {
        if !w.checkVersion(dep.verReq, w.targets[dep.name]) {
          return false, inStack;
        }
        continue;
      }
      if dep.name in out {
        if !w.checkVersion(dep.verReq, out[dep.name].version) {
          return false, inStack;
        }
        continue;
      }
      inStack := EmplaceBack(inStack, dep.name, StackEntry(dep.verReq, name));
    }
    assert deps[..|deps|] == deps;
    return true, inStack;
  }

  /** ImportPackage for a required package: every collected requirement is checked. */
  method ImportPackage(w: World, package: string, reqs: seq<StackEntry>) returns (r: Option<Package>)
    ensures r.Some? <==> package in w.packages
                         && forall e | e in reqs :: w.checkVersion(e.ver, w.packages[package].version)
    ensures r.Some? ==> r.value == w.packages[package]
  {
    if package !in w.packages {
      return None;
    }
    for k := 0 to |reqs|
      invariant forall e | e in reqs[..k] :: w.checkVersion(e.ver, w.packages[package].version)
    {
      if !w.checkVersion(reqs[k].ver, w.packages[package].version) {
        return None;
      }
      assert reqs[..k + 1] == reqs[..k] + [reqs[k]];
    }
    assert reqs[..|reqs|] == reqs;
    return Some(w.packages[package]);
  }

  /**
    ImportPackage for the package the command names: without a version argument any
    version will do, with EXACT only the same one, else one that meets it.
   */
  method ImportRoot(w: World, package: string, req: RootRequirement) returns (r: Option<Package>)
    ensures r.Some? ==> package in w.packages && r.value == w.packages[package]
    ensures req.AnyVersion? ==> (r.Some? <==> package in w.packages)
    ensures req.Exactly? ==> (r.Some? <==> package in w.packages && w.packages[package].version == req.version)
    ensures req.Matching? ==>
              (r.Some? <==> package in w.packages && w.checkVersion(req.verReq, w.packages[package].version))
  {
    if package !in w.packages {
      return None;
    }
    var result := w.packages[package];
    match req {
      case Exactly(ver) =>
        if ver != result.version {
          return None;
        }
      case Matching(rv) =>
        if !w.checkVersion(rv, result.version) {
          return None;
        }
      case AnyVersion =>
    }
    return Some(result);
  }

  method PopulatePCTarget(w: World, root: string, req: RootRequirement)
    returns (ok: bool, outStack: map<string, Package>)
    ensures req.AnyVersion? ==> (ok <==> Satisfiable(w, root))
    ensures req.Exactly? ==> (ok <==> Satisfiable(w, root) && w.packages[root].version == req.version)
    ensures req.Matching? ==> (ok <==> Satisfiable(w, root) && w.checkVersion(req.verReq, w.packages[root].version))
    ensures ok ==> forall p :: p in outStack <==> Reached(w, root, p)
    ensures ok ==> forall p | p in outStack :: p in w.packages && outStack[p] == w.packages[p]
  {
    outStack := map[];
    var inStack: PkgStack := map[];
    var maybePackage := ImportRoot(w, root, req);
    if maybePackage.None? {
      return false, outStack;
    }
    ReachesSelf(NeedsRel(w), root);
    ok, inStack := CheckPackageDependencies(w, root, maybePackage.value, inStack, outStack);
    if !ok {
      DependencyRefused(w, root, outStack, root);
      return;
    }
    RootQueued(w, root, inStack);
    outStack := outStack[root := maybePackage.value];
    while inStack != map[]
      invariant Inv(w, root, inStack, outStack)
      decreases w.packages.Keys - outStack.Keys, inStack.Keys
    {
      var name :| name in inStack;
      var reqs := inStack[name];
      var before := inStack;
      maybePackage := ImportPackage(w, name, reqs);
      if maybePackage.None? {
        ImportRefused(w, root, inStack, outStack, name);
        return false, outStack;
      }
      ok, inStack := CheckPackageDependencies(w, name, maybePackage.value, inStack, outStack);
      if !ok {
        DependencyRefused(w, root, outStack, name);
        return;
      }
      PackageRead(w, root, before, inStack, outStack, name);
      inStack := inStack - {name};
      outStack := outStack[name := maybePackage.value];
    }
    WorklistEmpty(w, root, outStack);
    return true, outStack;
  }

  // -------------------------------------------------------------------- steps

  lemma RootQueued(w: World, root: string, pending: PkgStack)
    requires root in w.packages && ChecksOk(w, w.packages[root].requires_, map[])
    requires Queued(w, root, w.packages[root].requires_, map[], pending, map[])
    ensures Inv(w, root, pending, map[root := w.packages[root]])
  {
    ReachesSelf(NeedsRel(w), root);
    forall q | q in pending
      ensures Reached(w, root, q)
    {
      assert Needs(w, root, q);
      ReachesEdge(NeedsRel(w), root, q);
    }
  }

  lemma ImportRefused(
      w: World, root: string, pending: PkgStack, out: map<string, Package>, name: string)
    requires Inv(w, root, pending, out) && name in pending
    requires !(name in w.packages && forall e | e in pending[name] :: w.checkVersion(e.ver, w.packages[name].version))
    ensures !Satisfiable(w, root)
  {
    if name in w.packages {
      var e :| e in pending[name] && !w.checkVersion(e.ver, w.packages[name].version);
      assert !PackageOk(w, root, e.parent);
    } else {
      assert !PackageOk(w, root, name);
    }
  }

  lemma DependencyRefused(w: World, root: string, out: map<string, Package>, name: string)
    requires name in w.packages && Reached(w, root, name) && (name in out ==> name == root)
    requires forall p | p in out :: p in w.packages && out[p] == w.packages[p]
    requires !ChecksOk(w, w.packages[name].requires_, out)
    ensures !Satisfiable(w, root)
  {
    assert !PackageOk(w, root, name);
  }

  /** One turn of the loop: name moves from the stack of pending packages to the others. */
  lemma PackageRead(
      w: World, root: string, before: PkgStack, pending: PkgStack, out: map<string, Package>, name: string)
    requires Inv(w, root, before, out) && name in before && name in w.packages
    requires forall e | e in before[name] :: w.checkVersion(e.ver, w.packages[name].version)
    requires ChecksOk(w, w.packages[name].requires_, out)
    requires Queued(w, name, w.packages[name].requires_, before, pending, out)
    ensures Inv(w, root, pending - {name}, out[name := w.packages[name]])
    ensures if name in out then out[name := w.packages[name]] == out && (pending - {name}).Keys < before.Keys
            else w.packages.Keys - out[name := w.packages[name]].Keys < w.packages.Keys - out.Keys
  {
    var pending', out' := pending - {name}, out[name := w.packages[name]];
    forall q | q in pending'
      ensures Reached(w, root, q) && (q in out' ==> q == root)
    {
      if q !in before {
        assert Needs(w, name, q);
        ReachesThenEdge(NeedsRel(w), root, name, q);
      }
    }
    forall p, dep | p in out' && dep in out'[p].requires_
      ensures Handled(w, root, pending', out', p, dep)
    {
      if p in out {
        StaysHandled(w, root, before, pending, out, name, p, dep);
      } else {
        assert p == name;
      }
    }
    if name in out {
      assert out' == out;
      assert forall dep | dep in w.packages[name].requires_ :: Handled(w, root, before, out, name, dep);
      assert pending'.Keys <= before.Keys - {name};
    } else {
      assert name in w.packages.Keys - out.Keys;
    }
  }

  lemma StaysHandled(
      w: World, root: string, before: PkgStack, pending: PkgStack, out: map<string, Package>,
      name: string, p: string, dep: Dependency)
    requires AllHandled(w, root, before, out) && name in before && name in w.packages
    requires name in out ==> out[name] == w.packages[name]
    requires forall e | e in before[name] :: w.checkVersion(e.ver, w.packages[name].version)
    requires Queued(w, name, w.packages[name].requires_, before, pending, out)
    requires p in out && dep in out[p].requires_
    ensures Handled(w, root, pending - {name}, out[name := w.packages[name]], p, dep)
  {
    assert Handled(w, root, before, out, p, dep);
    if Unmet(w, dep) && IsChecked(root, p, dep) && dep.name in before
       && StackEntry(dep.verReq, p) in before[dep.name] {
      assert dep.name in pending && StackEntry(dep.verReq, p) in pending[dep.name];
      assert dep.name == name ==> w.checkVersion(dep.verReq, w.packages[name].version);
    }
  }

  lemma WorklistEmpty(w: World, root: string, out: map<string, Package>)
    requires Inv(w, root, map[], out)
    ensures Satisfiable(w, root)
    ensures forall p :: p in out <==> Reached(w, root, p)
  {
    var s := iset p | p in out;
    forall p, q | p in s && NeedsRel(w)(p, q)
      ensures q in s
    {
      var dep :| dep in w.packages[p].requires_ && Unmet(w, dep) && dep.name == q;
      assert Handled(w, root, map[], out, p, dep);
    }
    forall p | Reached(w, root, p)
      ensures p in out && PackageOk(w, root, p)
    {
      ClosedUnderReach(NeedsRel(w), s, root, p);
      forall dep | dep in w.packages[p].requires_
        ensures Handled(w, root, map[], out, p, dep)
      {
      }
    }
  }

  // --------------------------------------------------------------- consequences

  /** Every target that CreateCMakeTarget links to is provided, exists or is created. */
  lemma LinksResolve(w: World, root: string, p: string, dep: Dependency)
    requires Satisfiable(w, root) && Reached(w, root, p) && dep in w.packages[p].requires_
    ensures dep.name in w.providers || dep.name in w.targets || Reached(w, root, dep.name)
  {
    if Unmet(w, dep) {
      assert Needs(w, p, dep.name);
      ReachesThenEdge(NeedsRel(w), root, p, dep.name);
    }
  }

  /** Every version requirement among the packages that were read is met. */
  ghost predicate RequirementsMet(w: World, root: string) {
    forall p, dep | Reached(w, root, p) && p in w.packages && dep in w.packages[p].requires_ ::
      Unmet(w, dep) ==> dep.name in w.packages && w.checkVersion(dep.verReq, w.packages[dep.name].version)
  }

  /** A package other than the root that does not meet its own requirement on itself. */
  ghost predicate RefusesItself(w: World, root: string, p: string) {
    && Reached(w, root, p) && p != root && p in w.packages
    && exists dep :: dep in w.packages[p].requires_ && Unmet(w, dep) && dep.name == p
                     && !w.checkVersion(dep.verReq, w.packages[p].version)
  }

  /** Success means that all requirements are met exactly when no package refuses itself. */
  lemma SuccessMeetsRequirements(w: World, root: string)
    requires Satisfiable(w, root)
    ensures RequirementsMet(w, root) <==> forall p | Reached(w, root, p) :: !RefusesItself(w, root, p)
  {
    if forall p | Reached(w, root, p) :: !RefusesItself(w, root, p) {
      forall p, dep | Reached(w, root, p) && p in w.packages && dep in w.packages[p].requires_ && Unmet(w, dep)
        ensures dep.name in w.packages && w.checkVersion(dep.verReq, w.packages[dep.name].version)
      {
        assert PackageOk(w, root, p) && !RefusesItself(w, root, p);
        LinksResolve(w, root, p, dep);
        assert PackageOk(w, root, dep.name);
      }
    }
  }

  /** A world in which a required package refuses itself and the command succeeds all the same. */
  lemma SelfRequirementGoesUnchecked()
    ensures exists w: World, root: string ::
              Satisfiable(w, root) && !RequirementsMet(w, root)
  {
    var need := VersionReq(GT, "2");
    var w := World(map["a" := Package("1", [Dependency("b", VersionReq(ANY, ""))]),
                       "b" := Package("1", [Dependency("b", need)])],
                   map[], map[], (r: VersionReq, v: string) => r.operation == ANY);
    var e := NeedsRel(w);
    assert w.packages["a"].requires_[0] in w.packages["a"].requires_;
    assert w.packages["b"].requires_[0] in w.packages["b"].requires_;
    assert Needs(w, "a", "b");
    ReachesEdge(e, "a", "b");
    forall p | Reached(w, "a", p)
      ensures PackageOk(w, "a", p)
    {
      ReachesSelf(e, "a");
      ClosedUnderReach(e, (iset q | q in w.packages), "a", p);
    }
    assert RefusesItself(w, "a", "b");
    SuccessMeetsRequirements(w, "a");
  }
}
