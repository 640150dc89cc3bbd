/**
  Strongly connected components (cmComputeComponentGraph): a Tarjan walk that
  keeps walk ids instead of an on-stack flag and a root node instead of a low
  link, followed by the transfer of the inter-component edges.

  The class holds the member vectors and updates them as the source does.  The
  proof talks about immutable snapshots of those vectors (Walk): each step of
  the walk is a lemma about two snapshots.
 */
module ComponentGraph {
  import opened Reachability

  /** Dest, strong, cross and (a handle of) the backtrace of a cmGraphEdge. */
  datatype Edge = Edge(dest: nat, strong: bool, cross: bool, backtrace: nat)

  type Graph = seq<seq<Edge>>

  datatype TarjanEntry = TarjanEntry(root: nat, visitIndex: nat)

  /** std::numeric_limits<size_t>::max() for a 64-bit size_t. */
  const INVALID_COMPONENT: nat := 0xFFFF_FFFF_FFFF_FFFF

  /** Every edge leads to a node, and the node count is a possible vector size. */
  ghost predicate ValidGraph(g: Graph) {
    && |g| <= 0xFFFF_FFFF_FFFF_FFFF
    && forall u, k | 0 <= u < |g| && 0 <= k < |g[u]| :: g[u][k].dest < |g|
  }

  ghost predicate HasEdge(g: Graph, u: nat, v: nat) {
    u < |g| && exists k :: 0 <= k < |g[u]| && g[u][k].dest == v
  }

  ghost function EdgeRel(g: Graph): (nat, nat) -> bool {
    (u: nat, v: nat) => HasEdge(g, u, v)
  }

  ghost predicate Reach(g: Graph, u: nat, v: nat) {
    Reaches(EdgeRel(g), u, v)
  }

  /** u and v belong to the same strongly connected component of g. */
  ghost predicate Mutual(g: Graph, u: nat, v: nat) {
    Reach(g, u, v) && Reach(g, v, u)
  }

  // ----------------------------------------------------------------- sorting

  ghost predicate StrictlyIncreasing(s: seq<nat>) {
    forall p, q | 0 <= p < q < |s| :: s[p] < s[q]
  }

  ghost predicate Distinct(s: seq<nat>) {
    forall p, q | 0 <= p < q < |s| :: s[p] != s[q]
  }

  function Insert(x: nat, s: seq<nat>): (r: seq<nat>)
    requires StrictlyIncreasing(s) && x !in s
    ensures StrictlyIncreasing(r)
    ensures forall y :: y in r <==> y == x || y in s
  {
    if s == [] then [x]
    else if x < s[0] then [x] + s
    else
      var t := Insert(x, s[1..]);
      forall q | 0 <= q < |t|
        ensures s[0] < t[q]
      {
        assert t[q] in t;
      }
      assert forall y | y in s[1..] :: s[0] < y;
      assert forall y :: y in s <==> y == s[0] || y in s[1..];
      [s[0]] + t
  }

  /** std::sort on the members of one component; they are pairwise distinct. */
  function SortNodes(s: seq<nat>): (r: seq<nat>)
    requires Distinct(s)
    ensures StrictlyIncreasing(r)
    ensures forall y :: y in r <==> y in s
  {
    if s == [] then []
    else
      assert forall y :: y in s <==> y == s[0] || y in s[1..];
      Insert(s[0], SortNodes(s[1..]))
  }

  // --------------------------------------------------------------- snapshots

  datatype Walk = Walk(
    visited: seq<nat>,
    comps: seq<nat>,
    entries: seq<TarjanEntry>,
    components: seq<seq<nat>>,
    stack: seq<nat>,
    walkId: nat,
    index: nat)

  ghost predicate Sized(g: Graph, w: Walk) {
    |w.visited| == |w.comps| == |w.entries| == |g|
  }

  /** Never visited. */
  ghost predicate White(w: Walk, v: nat) {
    v < |w.visited| && w.visited[v] == 0
  }

  /** Visited, not yet assigned to a component. */
  ghost predicate Open(w: Walk, v: nat) {
    v < |w.visited| && v < |w.comps| && w.visited[v] > 0 && w.comps[v] == INVALID_COMPONENT
  }

  /** Assigned to a component. */
  ghost predicate Done(w: Walk, v: nat) {
    v < |w.visited| && v < |w.comps| && w.comps[v] != INVALID_COMPONENT
  }

  ghost function Root(w: Walk, v: nat): nat {
    if v < |w.entries| then w.entries[v].root else 0
  }

  ghost function Idx(w: Walk, v: nat): nat {
    if v < |w.entries| then w.entries[v].visitIndex else 0
  }

  /** The stack holds exactly the open nodes, all of this walk, in visiting order. */
  ghost predicate StackOk(g: Graph, w: Walk) {
    && (forall p | 0 <= p < |w.stack| ::
          Open(w, w.stack[p]) && w.visited[w.stack[p]] == w.walkId && Idx(w, w.stack[p]) <= w.index)
    && (forall v: nat | Open(w, v) :: v in w.stack)
    && (forall p, q | 0 <= p < q < |w.stack| :: Idx(w, w.stack[p]) < Idx(w, w.stack[q]))
  }

  /** The root of an open node is open, reachable from it and visited no later. */
  ghost predicate RootsOk(g: Graph, w: Walk) {
    forall v: nat {:trigger Root(w, v)} | Open(w, v) ::
      Open(w, Root(w, v)) && Idx(w, Root(w, v)) <= Idx(w, v) && Reach(g, v, Root(w, v))
  }

  /** Edges out of assigned nodes lead to assigned nodes of no higher component. */
  ghost predicate DoneClosed(g: Graph, w: Walk) {
    forall u: nat, v: nat | Done(w, u) && HasEdge(g, u, v) :: Done(w, v) && w.comps[v] <= w.comps[u]
  }

  /** Among assigned nodes the component index decides mutual reachability. */
  ghost predicate DoneExact(g: Graph, w: Walk) {
    forall u: nat, v: nat {:trigger Mutual(g, u, v)} | Done(w, u) && Done(w, v) ::
      w.comps[u] == w.comps[v] <==> Mutual(g, u, v)
  }

  /** The component lists are the nonempty sorted inverse images of the map. */
  ghost predicate ListsOk(g: Graph, w: Walk) {
    && (forall v: nat | Done(w, v) :: w.visited[v] > 0 && w.comps[v] < |w.components|)
    && (forall c | 0 <= c < |w.components| ::
          |w.components[c]| > 0 && StrictlyIncreasing(w.components[c]))
    && (forall c, v: nat | 0 <= c < |w.components| ::
          v in w.components[c] <==> Done(w, v) && w.comps[v] == c)
  }

  ghost predicate Inv(g: Graph, w: Walk) {
    Sized(g, w) && StackOk(g, w) && RootsOk(g, w) && DoneClosed(g, w) && DoneExact(g, w) && ListsOk(g, w)
  }

  /** What a visit never changes: nodes that were visited before it began. */
  ghost predicate Keeps(w0: Walk, w: Walk) {
    && w.walkId == w0.walkId && |w.visited| == |w0.visited| && |w.comps| == |w0.comps|
    && |w.entries| == |w0.entries|
    && (forall v: nat | v < |w0.visited| && !White(w0, v) :: w.visited[v] == w0.visited[v])
    && (forall v: nat | Open(w0, v) :: Open(w, v) && Root(w, v) == Root(w0, v) && Idx(w, v) == Idx(w0, v))
    && (forall v: nat | Done(w0, v) :: Done(w, v) && w.comps[v] == w0.comps[v])
  }

  /** An edge into v has been taken into account by a node whose low index is low. */
  ghost predicate Settled(w: Walk, low: nat, v: nat) {
    Done(w, v) || (Open(w, v) && low <= Idx(w, v))
  }

  /** The nodes pushed since stack height base are all mutually reachable with i. */
  ghost predicate Knotted(g: Graph, w: Walk, base: nat, i: nat) {
    forall p | base <= p < |w.stack| :: Mutual(g, i, w.stack[p])
  }

  /** All edges out of the nodes above stack position base are settled. */
  ghost predicate AllSettled(g: Graph, w: Walk, base: nat, low: nat) {
    forall p, v | base <= p < |w.stack| && HasEdge(g, w.stack[p], v) :: Settled(w, low, v)
  }

  /** Between two edges of the loop in TarjanVisit(i): edges 0..k are handled. */
  ghost predicate Frame(g: Graph, w0: Walk, w: Walk, i: nat, k: nat) {
    && i < |g| && k <= |g[i]|
    && White(w0, i) && Keeps(w0, w)
    && |w0.stack| < |w.stack| && w.stack[..|w0.stack|] == w0.stack && w.stack[|w0.stack|] == i
    && (forall p | 0 <= p < |w0.stack| :: Reach(g, w.stack[p], i))
    && Knotted(g, w, |w0.stack|, i)
    && AllSettled(g, w, |w0.stack| + 1, Idx(w, Root(w, i)))
    && (forall e | 0 <= e < k :: Settled(w, Idx(w, Root(w, i)), g[i][e].dest))
  }

  ghost predicate LoopInv(g: Graph, w0: Walk, w: Walk, i: nat, k: nat) {
    Inv(g, w) && Frame(g, w0, w, i, k)
  }

  /** The visit of i found a root below i: i stays open, with all it reached on top. */
  ghost predicate Joined(g: Graph, w0: Walk, w: Walk, i: nat) {
    && Open(w, i)
    && |w0.stack| < |w.stack| && w.stack[..|w0.stack|] == w0.stack && w.stack[|w0.stack|] == i
    && Idx(w, Root(w, i)) < Idx(w, i)
    && Knotted(g, w, |w0.stack|, i)
    && AllSettled(g, w, |w0.stack|, Idx(w, Root(w, i)))
  }

  /** What a call TarjanVisit(i) that started in w0 leaves behind. */
  ghost predicate Visited(g: Graph, w0: Walk, w: Walk, i: nat) {
    && Inv(g, w) && Keeps(w0, w)
    && ((Done(w, i) && w.stack == w0.stack) || Joined(g, w0, w, i))
  }

  // --------------------------------------------------- the steps of the walk

  function Push(w: Walk, i: nat): Walk
    requires i < |w.visited| && i < |w.entries|
  {
    w.(visited := w.visited[i := w.walkId],
       entries := w.entries[i := TarjanEntry(i, w.index + 1)],
       index := w.index + 1,
       stack := w.stack + [i])
  }

  /** The entries read by the root update exist. */
  ghost predicate CanImprove(w: Walk, i: nat, j: nat) {
    && i < |w.entries| && j < |w.entries| && j < |w.comps|
    && (w.comps[j] == INVALID_COMPONENT ==>
          w.entries[i].root < |w.entries| && w.entries[j].root < |w.entries|)
  }

  /** The root update once the target j of an edge out of i has been visited. */
  function Improve(w: Walk, i: nat, j: nat): Walk
    requires CanImprove(w, i, j)
  {
    if w.comps[j] == INVALID_COMPONENT
       && w.entries[w.entries[j].root].visitIndex < w.entries[w.entries[i].root].visitIndex
    then w.(entries := w.entries[i := TarjanEntry(w.entries[j].root, w.entries[i].visitIndex)])
    else w
  }

  lemma PushStack(g: Graph, w: Walk, i: nat)
    requires Sized(g, w) && StackOk(g, w) && White(w, i) && w.walkId > 0 && w.comps[i] == INVALID_COMPONENT
    ensures StackOk(g, Push(w, i))
  {
    var w' := Push(w, i);
    forall v: nat | Open(w', v)
      ensures v in w'.stack
    {
      assert v == i || Open(w, v);
      assert w'.stack[|w.stack|] == i;
    }
    forall p | 0 <= p < |w.stack|
      ensures w'.stack[p] == w.stack[p] && w.stack[p] != i
    {
      assert Open(w, w.stack[p]);
    }
  }

  lemma PushRoots(g: Graph, w: Walk, i: nat)
    requires Sized(g, w) && RootsOk(g, w) && White(w, i) && w.walkId > 0 && w.comps[i] == INVALID_COMPONENT
    ensures RootsOk(g, Push(w, i))
  {
    var w' := Push(w, i);
    ReachesSelf(EdgeRel(g), i);
    forall v: nat | Open(w', v)
      ensures Open(w', Root(w', v)) && Idx(w', Root(w', v)) <= Idx(w', v) && Reach(g, v, Root(w', v))
    {
      if v != i {
        assert Open(w, v) && Open(w, Root(w, v));
      }
    }
  }

  /** Nothing about assigned nodes depends on the stack or the entries. */
  lemma DoneUntouched(g: Graph, w: Walk, w': Walk)
    requires Sized(g, w) && Sized(g, w') && DoneClosed(g, w) && DoneExact(g, w) && ListsOk(g, w)
    requires w'.comps == w.comps && w'.components == w.components
    requires forall v: nat :: Done(w, v) ==> w'.visited[v] > 0
    ensures DoneClosed(g, w') && DoneExact(g, w') && ListsOk(g, w')
  {
    assert forall v: nat :: Done(w', v) <==> Done(w, v);
  }

  lemma PushStarts(g: Graph, w: Walk, i: nat)
    requires Inv(g, w) && i < |g| && White(w, i) && w.walkId > 0
    requires forall p | 0 <= p < |w.stack| :: Reach(g, w.stack[p], i)
    ensures LoopInv(g, w, Push(w, i), i, 0)
  {
    var w' := Push(w, i);
    assert w.comps[i] == INVALID_COMPONENT;
    ReachesSelf(EdgeRel(g), i);
    PushStack(g, w, i);
    PushRoots(g, w, i);
    DoneUntouched(g, w, w');
    assert w'.stack[..|w.stack|] == w.stack;
  }

  /** An edge whose target was visited before: an earlier walk, this walk, or assigned. */
  lemma KnownTarget(g: Graph, w0: Walk, w: Walk, i: nat, k: nat)
    requires ValidGraph(g) && LoopInv(g, w0, w, i, k) && k < |g[i]|
    requires !White(w, g[i][k].dest)
    ensures CanImprove(w, i, g[i][k].dest)
    ensures LoopInv(g, w0, Improve(w, i, g[i][k].dest), i, k + 1)
  {
    var j := g[i][k].dest;
    assert HasEdge(g, i, j);
    OpenOnTop(g, w0, w, i, k);
    if w.comps[j] == INVALID_COMPONENT {
      assert Open(w, j) && Open(w, Root(w, i)) && Open(w, Root(w, j));
      var w' := Improve(w, i, j);
      if Idx(w, Root(w, j)) < Idx(w, Root(w, i)) {
        ImproveKeepsInv(g, w, i, j);
      }
      ImproveKeepsFrame(g, w0, w, i, j, k);
    }
  }

  lemma OpenOnTop(g: Graph, w0: Walk, w: Walk, i: nat, k: nat)
    requires LoopInv(g, w0, w, i, k)
    ensures Open(w, i)
  {
    assert Open(w, w.stack[|w0.stack|]);
  }

  lemma ImproveKeepsInv(g: Graph, w: Walk, i: nat, j: nat)
    requires Inv(g, w) && Open(w, i) && Open(w, j) && HasEdge(g, i, j)
    requires Open(w, Root(w, i)) && Open(w, Root(w, j)) && Idx(w, Root(w, j)) < Idx(w, Root(w, i))
    ensures Inv(g, Improve(w, i, j))
  {
    var w' := Improve(w, i, j);
    EdgeThenReaches(EdgeRel(g), i, j, Root(w, j));
    assert forall v: nat :: Idx(w', v) == Idx(w, v);
    assert StackOk(g, w') by {
      assert forall v: nat :: Open(w', v) <==> Open(w, v);
    }
    assert RootsOk(g, w') by {
      assert forall v: nat :: Open(w', v) <==> Open(w, v);
      assert forall v: nat | v != i :: Root(w', v) == Root(w, v);
    }
    DoneUntouched(g, w, w');
  }

  lemma ImproveKeepsFrame(g: Graph, w0: Walk, w: Walk, i: nat, j: nat, k: nat)
    requires Frame(g, w0, w, i, k) && k < |g[i]| && j == g[i][k].dest
    requires Open(w, i) && Open(w, j) && Open(w, Root(w, i)) && Open(w, Root(w, j))
    requires i < |w.entries| && j < |w.entries| && Root(w, i) < |w.entries| && Root(w, j) < |w.entries|
    requires Idx(w, Root(w, j)) <= Idx(w, j)
    ensures Frame(g, w0, Improve(w, i, j), i, k + 1)
  {
    var w' := Improve(w, i, j);
    var low, low' := Idx(w, Root(w, i)), Idx(w', Root(w', i));
    assert forall v: nat :: Settled(w, low, v) ==> Settled(w', low', v);
    assert forall v: nat :: Idx(w', v) == Idx(w, v);
  }

  /** Keeps is what a caller of a caller sees as well. */
  lemma KeepsTrans(w0: Walk, w1: Walk, w2: Walk)
    requires Keeps(w0, w1) && Keeps(w1, w2)
    ensures Keeps(w0, w2)
  {
  }

  /** The child found its own component and left the stack as it was. */
  lemma ChildAssigned(g: Graph, w0: Walk, w: Walk, wc: Walk, i: nat, k: nat)
    requires Frame(g, w0, w, i, k) && k < |g[i]| && Open(w, i) && Open(w, Root(w, i))
    requires Keeps(w, wc) && wc.stack == w.stack && Done(wc, g[i][k].dest)
    ensures Frame(g, w0, wc, i, k + 1)
  {
    KeepsTrans(w0, w, wc);
    var low := Idx(w, Root(w, i));
    assert Idx(wc, Root(wc, i)) == low;
    assert forall v: nat :: Settled(w, low, v) ==> Settled(wc, low, v);
  }

  /** Stack position and visit index order the open nodes alike. */
  lemma StackOrder(g: Graph, w: Walk, p: nat, q: nat)
    requires StackOk(g, w) && p < |w.stack| && q < |w.stack|
    ensures p <= q <==> Idx(w, w.stack[p]) <= Idx(w, w.stack[q])
  {
  }

  /** A root that is older than the child was on the stack before the child. */
  lemma OlderRoot(g: Graph, w: Walk, wc: Walk, j: nat)
    requires StackOk(g, wc) && Joined(g, w, wc, j) && Open(wc, Root(wc, j))
    ensures exists p :: 0 <= p < |w.stack| && w.stack[p] == Root(wc, j)
  {
    var p :| 0 <= p < |wc.stack| && wc.stack[p] == Root(wc, j);
    StackOrder(g, wc, |w.stack|, p);
    assert wc.stack[..|w.stack|][p] == wc.stack[p];
  }

  /** The child stays on the stack: everything it reached is knotted with i too. */
  lemma ChildKnotted(g: Graph, w0: Walk, w: Walk, wc: Walk, i: nat, k: nat)
    requires Frame(g, w0, w, i, k) && k < |g[i]| && Joined(g, w, wc, g[i][k].dest)
    requires exists p :: 0 <= p < |w.stack| && w.stack[p] == Root(wc, g[i][k].dest)
    requires Reach(g, g[i][k].dest, Root(wc, g[i][k].dest))
    ensures Knotted(g, wc, |w0.stack|, i)
  {
    var j := g[i][k].dest;
    assert HasEdge(g, i, j);
    var p :| 0 <= p < |w.stack| && w.stack[p] == Root(wc, j);
    assert Reach(g, w.stack[p], i) by {
      assert p >= |w0.stack| ==> Mutual(g, i, w.stack[p]);
    }
    ReachesTrans(EdgeRel(g), j, w.stack[p], i);
    forall q | |w0.stack| <= q < |wc.stack|
      ensures Mutual(g, i, wc.stack[q])
    {
      if q < |w.stack| {
        assert wc.stack[..|w.stack|][q] == wc.stack[q];
        assert Mutual(g, i, w.stack[q]);
      } else {
        assert Mutual(g, j, wc.stack[q]);
        EdgeThenReaches(EdgeRel(g), i, j, wc.stack[q]);
        ReachesTrans(EdgeRel(g), wc.stack[q], j, i);
      }
    }
  }

  lemma ChildSettled(g: Graph, w0: Walk, w: Walk, wc: Walk, i: nat, k: nat, low': nat)
    requires Frame(g, w0, w, i, k) && k < |g[i]| && Keeps(w, wc) && Joined(g, w, wc, g[i][k].dest)
    requires Open(w, i) && Open(w, Root(w, i))
    requires low' <= Idx(w, Root(w, i)) && low' <= Idx(wc, Root(wc, g[i][k].dest))
    ensures AllSettled(g, wc, |w0.stack| + 1, low')
    ensures forall e | 0 <= e < k :: Settled(wc, low', g[i][e].dest)
  {
    var low, lowJ := Idx(w, Root(w, i)), Idx(wc, Root(wc, g[i][k].dest));
    assert forall v: nat :: Settled(w, low, v) ==> Settled(wc, low', v);
    assert forall v: nat :: Settled(wc, lowJ, v) ==> Settled(wc, low', v);
    forall p, v: nat | |w0.stack| + 1 <= p < |wc.stack| && HasEdge(g, wc.stack[p], v)
      ensures Settled(wc, low', v)
    {
      if p < |w.stack| {
        assert wc.stack[..|w.stack|][p] == wc.stack[p];
      }
    }
  }

  lemma ChildJoined(g: Graph, w0: Walk, w: Walk, wc: Walk, i: nat, k: nat)
    requires Frame(g, w0, w, i, k) && k < |g[i]| && Open(w, i) && Open(w, Root(w, i))
    requires Keeps(w, wc) && Joined(g, w, wc, g[i][k].dest) && CanImprove(wc, i, g[i][k].dest)
    requires Knotted(g, wc, |w0.stack|, i)
    requires Idx(wc, Root(wc, g[i][k].dest)) <= Idx(wc, g[i][k].dest)
    ensures Frame(g, w0, Improve(wc, i, g[i][k].dest), i, k + 1)
  {
    var j := g[i][k].dest;
    var w' := Improve(wc, i, j);
    var low' := Idx(w', Root(w', i));
    KeepsTrans(w0, w, wc);
    assert forall v: nat :: Idx(w', v) == Idx(wc, v);
    assert Idx(wc, Root(wc, i)) == Idx(w, Root(w, i));
    ChildSettled(g, w0, w, wc, i, k, low');
    assert forall v: nat :: Settled(wc, low', v) ==> Settled(w', low', v);
    assert w'.stack[..|w0.stack|] == w.stack[..|w0.stack|] by {
      assert wc.stack[..|w.stack|] == w.stack;
    }
    assert forall p | 0 <= p < |w.stack| :: wc.stack[p] == wc.stack[..|w.stack|][p];
  }

  lemma ChildStayed(g: Graph, w0: Walk, w: Walk, wc: Walk, i: nat, k: nat)
    requires Frame(g, w0, w, i, k) && k < |g[i]| && Open(w, i) && Open(w, Root(w, i))
    requires Keeps(w, wc) && Inv(g, wc) && Joined(g, w, wc, g[i][k].dest)
    ensures CanImprove(wc, i, g[i][k].dest)
    ensures LoopInv(g, w0, Improve(wc, i, g[i][k].dest), i, k + 1)
  {
    var j := g[i][k].dest;
    var r := Root(wc, j);
    assert Open(wc, r) && Reach(g, j, r) && Open(wc, Root(wc, i));
    OlderRoot(g, w, wc, j);
    ChildKnotted(g, w0, w, wc, i, k);
    ChildJoined(g, w0, w, wc, i, k);
    if Idx(wc, r) < Idx(wc, Root(wc, i)) {
      assert HasEdge(g, i, j);
      ImproveKeepsInv(g, wc, i, j);
    }
  }

  /** An edge to a white node: the recursive visit, then the root update. */
  lemma ChildVisited(g: Graph, w0: Walk, w: Walk, wc: Walk, i: nat, k: nat)
    requires LoopInv(g, w0, w, i, k) && k < |g[i]| && Visited(g, w, wc, g[i][k].dest)
    ensures CanImprove(wc, i, g[i][k].dest)
    ensures LoopInv(g, w0, Improve(wc, i, g[i][k].dest), i, k + 1)
  {
    OpenOnTop(g, w0, w, i, k);
    assert Open(w, Root(w, i));
    if Joined(g, w, wc, g[i][k].dest) {
      ChildStayed(g, w0, w, wc, i, k);
    } else {
      ChildAssigned(g, w0, w, wc, i, k);
    }
  }

  // --------------------------------------------------------- a new component

  /** In the middle of the pop: the stack is down to height t. */
  ghost predicate Popping(w: Walk, w': Walk, t: nat) {
    && t <= |w.stack| && |w.comps| == |w.entries| == |w.visited|
    && |w'.comps| == |w.comps| && |w'.entries| == |w.entries|
    && w'.visited == w.visited && w'.walkId == w.walkId && w'.index == w.index
    && w'.stack == w.stack[..t]
    && (forall v: nat | v < |w.comps| ::
          w'.comps[v] == if v in w.stack[t..] then |w.components| else w.comps[v])
    && (forall v: nat | v < |w.entries| && v !in w.stack[t..] :: w'.entries[v] == w.entries[v])
    && (forall v: nat | v < |w.entries| :: w'.entries[v].visitIndex == w.entries[v].visitIndex)
    && |w'.components| == |w.components| + 1 && w'.components[..|w.components|] == w.components
    && Distinct(w'.components[|w.components|])
    && (forall v: nat :: v in w'.components[|w.components|] <==> v in w.stack[t..])
  }

  /** The part of the stack above base became component number |components|, sorted. */
  ghost predicate Popped(base: nat, w: Walk, w': Walk) {
    Popping(w, w', base) && StrictlyIncreasing(w'.components[|w.components|])
  }

  /** Moving the top of the stack into the last component, with root i. */
  function PopStep(w: Walk, i: nat): Walk
    requires |w.stack| > 0 && w.stack[|w.stack| - 1] < |w.comps| == |w.entries| && |w.components| > 0
  {
    var j, c := w.stack[|w.stack| - 1], |w.components| - 1;
    w.(stack := w.stack[..|w.stack| - 1],
       comps := w.comps[j := c],
       entries := w.entries[j := TarjanEntry(i, w.entries[j].visitIndex)],
       components := w.components[c := w.components[c] + [j]])
  }

  lemma PoppingStarts(w: Walk, w': Walk)
    requires |w.comps| == |w.entries| == |w.visited|
    requires w' == w.(components := w.components + [[]])
    ensures Popping(w, w', |w.stack|)
  {
  }

  lemma PoppingEnds(w: Walk, w': Walk, base: nat)
    requires Popping(w, w', base)
    ensures var c := |w.components|;
      Popped(base, w, w'.(components := w'.components[c := SortNodes(w'.components[c])]))
  {
    var c := |w.components|;
    var w'' := w'.(components := w'.components[c := SortNodes(w'.components[c])]);
    assert w''.components[..c] == w'.components[..c];
  }

  lemma PoppingStep(g: Graph, w: Walk, w': Walk, i: nat, t: nat)
    requires StackOk(g, w) && t < |w.stack| && Popping(w, w', t + 1)
    requires w.stack[t..] == [w.stack[t]] + w.stack[t + 1..]
    requires w.stack[t] !in w.stack[t + 1..]
    ensures w'.stack[|w'.stack| - 1] == w.stack[t] < |w'.comps|
    ensures Popping(w, PopStep(w', i), t)
  {
    assert Open(w, w.stack[t]);
    var w'' := PopStep(w', i);
    assert w''.components[..|w.components|] == w.components;
  }

  ghost predicate Top(w0: Walk, w: Walk, v: nat)
    requires |w0.stack| <= |w.stack|
  {
    v in w.stack[|w0.stack|..]
  }

  /** The open nodes no older than i are those above i's position. */
  lemma TopIsYoung(g: Graph, w0: Walk, w: Walk, i: nat)
    requires StackOk(g, w) && |w0.stack| < |w.stack| && w.stack[|w0.stack|] == i
    ensures forall v: nat :: Top(w0, w, v) <==> (Open(w, v) && Idx(w, i) <= Idx(w, v))
  {
    var base := |w0.stack|;
    forall v: nat | Top(w0, w, v)
      ensures Open(w, v) && Idx(w, i) <= Idx(w, v)
    {
      var q :| 0 <= q < |w.stack[base..]| && w.stack[base..][q] == v;
      StackOrder(g, w, base, base + q);
    }
    forall v: nat | Open(w, v) && Idx(w, i) <= Idx(w, v)
      ensures Top(w0, w, v)
    {
      var q :| 0 <= q < |w.stack| && w.stack[q] == v;
      StackOrder(g, w, base, q);
      assert w.stack[base..][q - base] == v;
    }
  }

  /** The nodes on top are knotted with i and were not open when the visit began. */
  lemma TopIsKnotted(g: Graph, w0: Walk, w: Walk, i: nat)
    requires StackOk(g, w0) && StackOk(g, w) && Knotted(g, w, |w0.stack|, i)
    requires |w0.stack| < |w.stack| && w.stack[..|w0.stack|] == w0.stack
    ensures forall v: nat | Top(w0, w, v) :: Mutual(g, i, v) && !Open(w0, v)
  {
    var base := |w0.stack|;
    forall v: nat | Top(w0, w, v)
      ensures Mutual(g, i, v) && !Open(w0, v)
    {
      var q :| 0 <= q < |w.stack[base..]| && w.stack[base..][q] == v;
      assert w.stack[base + q] == v;
      forall p | 0 <= p < base
        ensures w0.stack[p] != v
      {
        assert w.stack[..base][p] == w.stack[p];
        assert Idx(w, w.stack[p]) < Idx(w, w.stack[base + q]);
      }
    }
  }

  /** When i is its own root, no edge leaves the top except to assigned nodes. */
  lemma TopClosed(g: Graph, w0: Walk, w: Walk, i: nat)
    requires i < |g| && StackOk(g, w) && Frame(g, w0, w, i, |g[i]|) && Root(w, i) == i
    ensures forall u: nat, v: nat | Top(w0, w, u) && HasEdge(g, u, v) :: Top(w0, w, v) || Done(w, v)
  {
    var base := |w0.stack|;
    TopIsYoung(g, w0, w, i);
    forall u: nat, v: nat | Top(w0, w, u) && HasEdge(g, u, v)
      ensures Top(w0, w, v) || Done(w, v)
    {
      var q :| 0 <= q < |w.stack[base..]| && w.stack[base..][q] == u;
      assert w.stack[base + q] == u;
      assert Settled(w, Idx(w, i), v);
    }
  }

  /** Assigned nodes reach assigned nodes only. */
  lemma DoneReachesDone(g: Graph, w: Walk, u: nat, v: nat)
    requires DoneClosed(g, w) && Done(w, u) && Reach(g, u, v)
    ensures Done(w, v)
  {
    ClosedUnderReach(EdgeRel(g), (iset x: nat | Done(w, x)), u, v);
  }

  lemma PopStack(g: Graph, w0: Walk, w: Walk, w': Walk)
    requires Sized(g, w) && StackOk(g, w) && Popped(|w0.stack|, w, w') && |w.components| < INVALID_COMPONENT
    ensures StackOk(g, w')
    ensures forall v: nat :: Open(w', v) <==> Open(w, v) && !Top(w0, w, v)
    ensures forall v: nat :: Done(w', v) <==> Done(w, v) || (v < |g| && Top(w0, w, v))
  {
    var base := |w0.stack|;
    forall p | 0 <= p < |w'.stack|
      ensures w'.stack[p] == w.stack[p] && w.stack[p] !in w.stack[base..]
    {
      forall q | 0 <= q < |w.stack[base..]|
        ensures w.stack[base..][q] != w.stack[p]
      {
        assert Idx(w, w.stack[p]) < Idx(w, w.stack[base + q]);
      }
    }
    forall v: nat | Open(w', v)
      ensures v in w'.stack
    {
      assert Open(w, v) && v !in w.stack[base..];
      assert w.stack == w.stack[..base] + w.stack[base..];
    }
  }

  lemma PopRoots(g: Graph, w0: Walk, w: Walk, w': Walk, i: nat)
    requires Sized(g, w) && RootsOk(g, w) && Popped(|w0.stack|, w, w')
    requires forall v: nat :: Top(w0, w, v) <==> (Open(w, v) && Idx(w, i) <= Idx(w, v))
    requires forall v: nat :: Open(w', v) <==> Open(w, v) && !Top(w0, w, v)
    ensures RootsOk(g, w')
  {
    forall v: nat | Open(w', v)
      ensures Open(w', Root(w', v)) && Idx(w', Root(w', v)) <= Idx(w', v) && Reach(g, v, Root(w', v))
    {
      assert Open(w, v) && Root(w', v) == Root(w, v) && Open(w, Root(w, v));
    }
  }

  lemma PopClosed(g: Graph, w0: Walk, w: Walk, w': Walk)
    requires Sized(g, w) && DoneClosed(g, w) && ListsOk(g, w) && Popped(|w0.stack|, w, w')
    requires forall v: nat | Top(w0, w, v) :: Open(w, v)
    requires forall u: nat, v: nat | Top(w0, w, u) && HasEdge(g, u, v) :: Top(w0, w, v) || Done(w, v)
    requires forall v: nat :: Done(w', v) <==> Done(w, v) || (v < |g| && Top(w0, w, v))
    ensures DoneClosed(g, w')
  {
    forall u: nat, v: nat | Done(w', u) && HasEdge(g, u, v)
      ensures Done(w', v) && w'.comps[v] <= w'.comps[u]
    {
      if Done(w, u) {
        assert Done(w, v) && !Top(w0, w, u) && !Top(w0, w, v);
      }
    }
  }

  lemma PopExact(g: Graph, w0: Walk, w: Walk, w': Walk, i: nat)
    requires Sized(g, w) && DoneClosed(g, w) && DoneExact(g, w) && ListsOk(g, w) && Popped(|w0.stack|, w, w')
    requires forall v: nat | Top(w0, w, v) :: Open(w, v) && Mutual(g, i, v)
    requires forall v: nat :: Done(w', v) <==> Done(w, v) || (v < |g| && Top(w0, w, v))
    ensures DoneExact(g, w')
  {
    forall u: nat, v: nat | Done(w', u) && Done(w', v)
      ensures w'.comps[u] == w'.comps[v] <==> Mutual(g, u, v)
    {
      if Top(w0, w, u) && Top(w0, w, v) {
        assert Mutual(g, i, u) && Mutual(g, i, v);
        ReachesTrans(EdgeRel(g), u, i, v);
        ReachesTrans(EdgeRel(g), v, i, u);
      } else if Top(w0, w, u) {
        assert Done(w, v) && !Done(w, u);
        if Reach(g, v, u) { DoneReachesDone(g, w, v, u); }
      } else if Top(w0, w, v) {
        assert Done(w, u) && !Done(w, v);
        if Reach(g, u, v) { DoneReachesDone(g, w, u, v); }
      } else {
        assert Done(w, u) && Done(w, v);
      }
    }
  }

  lemma PopLists(g: Graph, w0: Walk, w: Walk, w': Walk)
    requires Sized(g, w) && ListsOk(g, w) && Popped(|w0.stack|, w, w') && |w0.stack| < |w.stack|
    requires |w.components| < INVALID_COMPONENT
    requires forall v: nat | Top(w0, w, v) :: Open(w, v)
    requires forall v: nat :: Done(w', v) <==> Done(w, v) || (v < |g| && Top(w0, w, v))
    ensures ListsOk(g, w')
  {
    var n := |w.components|;
    assert w.stack[|w0.stack|] in w'.components[n] by {
      assert w.stack[|w0.stack|..][0] == w.stack[|w0.stack|];
    }
    forall c | 0 <= c < n
      ensures w'.components[c] == w.components[c]
    {
      assert w'.components[..n][c] == w'.components[c];
    }
    forall v: nat | Done(w', v)
      ensures w'.visited[v] > 0 && w'.comps[v] < |w'.components|
    {
      assert !Top(w0, w, v) ==> Done(w, v);
    }
    forall c, v: nat | 0 <= c <= n
      ensures v in w'.components[c] <==> Done(w', v) && w'.comps[v] == c
    {
      assert Done(w, v) ==> !Top(w0, w, v) && w'.comps[v] == w.comps[v] < n;
      if c < n {
        assert w'.components[c] == w.components[c];
      } else {
        assert v in w'.components[c] <==> Top(w0, w, v);
      }
    }
  }

  /** The do-while loop that empties the top of the stack completes the visit. */
  lemma PopCompletes(g: Graph, w0: Walk, w: Walk, w': Walk, i: nat)
    requires i < |g| && Inv(g, w0) && LoopInv(g, w0, w, i, |g[i]|) && Root(w, i) == i
    requires |w.components| < INVALID_COMPONENT && Popped(|w0.stack|, w, w')
    ensures Visited(g, w0, w', i)
  {
    TopIsYoung(g, w0, w, i);
    TopIsKnotted(g, w0, w, i);
    TopClosed(g, w0, w, i);
    PopStack(g, w0, w, w');
    PopRoots(g, w0, w, w', i);
    PopClosed(g, w0, w, w');
    PopExact(g, w0, w, w', i);
    PopLists(g, w0, w, w');
    assert Top(w0, w, i) by {
      assert w.stack[|w0.stack|..][0] == i;
    }
    PopKeeps(w0, w, w');
  }

  lemma PopKeeps(w0: Walk, w: Walk, w': Walk)
    requires Keeps(w0, w) && Popped(|w0.stack|, w, w')
    requires forall v: nat | Top(w0, w, v) :: Open(w, v) && !Open(w0, v)
    ensures Keeps(w0, w')
  {
    assert forall v: nat | Open(w0, v) :: Open(w, v) && !Top(w0, w, v);
    assert forall v: nat | Done(w0, v) :: Done(w, v) && !Top(w0, w, v);
  }

  lemma OwnEdgesSettled(g: Graph, w: Walk, i: nat, base: nat, low: nat)
    requires i < |g| && base < |w.stack| && w.stack[base] == i
    requires AllSettled(g, w, base + 1, low)
    requires forall e | 0 <= e < |g[i]| :: Settled(w, low, g[i][e].dest)
    ensures AllSettled(g, w, base, low)
  {
  }

  /** When i is not its own root it stays on the stack with everything above it. */
  lemma StayCompletes(g: Graph, w0: Walk, w: Walk, i: nat)
    requires i < |g| && LoopInv(g, w0, w, i, |g[i]|) && Root(w, i) != i
    ensures Visited(g, w0, w, i)
  {
    OpenOnTop(g, w0, w, i, |g[i]|);
    OwnEdgesSettled(g, w, i, |w0.stack|, Idx(w, Root(w, i)));
    OlderThanI(g, w, i);
  }

  lemma OlderThanI(g: Graph, w: Walk, i: nat)
    requires StackOk(g, w) && RootsOk(g, w) && Open(w, i) && Root(w, i) != i
    ensures Idx(w, Root(w, i)) < Idx(w, i)
  {
    assert Open(w, Root(w, i));
    var p, q :| 0 <= p < |w.stack| && 0 <= q < |w.stack| && w.stack[p] == i && w.stack[q] == Root(w, i);
    StackOrder(g, w, p, q);
  }

  // ---------------------------------------------------------------- counting

  lemma {:induction false} DistinctBelow(s: seq<nat>, n: nat)
    requires Distinct(s) && forall k | 0 <= k < |s| :: s[k] < n
    ensures |s| <= n
  {
    assert |s| > 0 ==> s[0] < n;
    if n > 0 {
      if k :| 0 <= k < |s| && s[k] == n - 1 {
        DistinctBelow(s[..k] + s[k + 1..], n - 1);
      } else {
        DistinctBelow(s, n - 1);
      }
    }
  }

  /** While a node is unassigned there are fewer components than nodes. */
  lemma ComponentCount(g: Graph, w: Walk, i: nat)
    requires Sized(g, w) && ListsOk(g, w) && i < |g| && !Done(w, i)
    ensures |w.components| < |g|
  {
    var reps := seq(|w.components|, c requires 0 <= c < |w.components| => w.components[c][0]) + [i];
    forall c | 0 <= c < |w.components|
      ensures Done(w, reps[c]) && w.comps[reps[c]] == c
    {
      assert reps[c] in w.components[c];
    }
    DistinctBelow(reps, |g|);
  }

  ghost function Whites(visited: seq<nat>): set<nat> {
    set v: nat | v < |visited| && visited[v] == 0
  }

  /** A visit in progress has used up its start node: the recursion is bounded. */
  lemma FewerWhites(w0: Walk, w: Walk, i: nat)
    requires Keeps(w0, w) && White(w0, i) && Open(w, i)
    ensures Whites(w.visited) < Whites(w0.visited)
  {
    assert i in Whites(w0.visited) && i !in Whites(w.visited);
    forall v | v in Whites(w.visited)
      ensures v in Whites(w0.visited)
    {
      assert White(w0, v);
    }
  }

  // ------------------------------------------------------------- the program

  class ComponentGraphBuilder {
    const inputGraph: Graph
    var componentGraph: Graph

    var tarjanVisited: seq<nat>
    var tarjanComponents: seq<nat>
    var tarjanEntries: seq<TarjanEntry>
    var components: seq<seq<nat>>
    var tarjanStack: seq<nat>
    var tarjanWalkId: nat
    var tarjanIndex: nat

    constructor (input: Graph)
      ensures inputGraph == input
      ensures components == [] && tarjanStack == []
    {
      inputGraph := input;
      componentGraph, components := [], [];
      tarjanVisited, tarjanComponents, tarjanEntries, tarjanStack := [], [], [], [];
      tarjanWalkId, tarjanIndex := 0, 0;
    }

    ghost function Now(): Walk
      reads this
    {
      Walk(tarjanVisited, tarjanComponents, tarjanEntries, components, tarjanStack, tarjanWalkId, tarjanIndex)
    }

    method TarjanVisit(i: nat)
      requires ValidGraph(inputGraph) && Inv(inputGraph, Now()) && tarjanWalkId > 0
      requires i < |inputGraph| && White(Now(), i)
      requires forall p | 0 <= p < |tarjanStack| :: Reach(inputGraph, tarjanStack[p], i)
      modifies this
      ensures Visited(inputGraph, old(Now()), Now(), i)
      ensures componentGraph == old(componentGraph)
      decreases Whites(tarjanVisited), 0
    {
      ghost var w0 := Now();
      EnterNode(i);
      PushStarts(inputGraph, w0, i);
      var e := 0;
      while e < |inputGraph[i]|
        invariant e <= |inputGraph[i]| && LoopInv(inputGraph, w0, Now(), i, e)
        invariant componentGraph == old(componentGraph)
      {
        ChildMayStart(inputGraph, w0, Now(), i, e);
        FollowEdge(w0, i, e);
        e := e + 1;
      }
      if tarjanEntries[i].root == i {
        PopComponent(w0, i);
      } else {
        StayCompletes(inputGraph, w0, Now(), i);
      }
    }

    /** The first lines of TarjanVisit: number the node and push it. */
    method EnterNode(i: nat)
      requires i < |tarjanVisited| == |tarjanComponents| == |tarjanEntries|
      requires tarjanComponents[i] == INVALID_COMPONENT
      modifies this
      ensures Now() == Push(old(Now()), i)
      ensures componentGraph == old(componentGraph)
    {
      tarjanVisited := tarjanVisited[i := tarjanWalkId];
      tarjanComponents := tarjanComponents[i := INVALID_COMPONENT];
      tarjanIndex := tarjanIndex + 1;
      tarjanEntries := tarjanEntries[i := TarjanEntry(i, tarjanIndex)];
      tarjanStack := tarjanStack + [i];
    }

    /** The loop body of TarjanVisit for edge number e out of i. */
    method FollowEdge(ghost w0: Walk, i: nat, e: nat)
      requires ValidGraph(inputGraph) && LoopInv(inputGraph, w0, Now(), i, e) && tarjanWalkId > 0
      requires e < |inputGraph[i]|
      requires forall p | 0 <= p < |tarjanStack| :: Reach(inputGraph, tarjanStack[p], inputGraph[i][e].dest)
      modifies this
      ensures LoopInv(inputGraph, w0, Now(), i, e + 1)
      ensures componentGraph == old(componentGraph)
      decreases Whites(tarjanVisited), 1
    {
      var j := inputGraph[i][e].dest;
      ghost var w := Now();
      if tarjanVisited[j] > 0 && tarjanVisited[j] < tarjanWalkId {
        EarlierWalk(inputGraph, w, j);
        KnownTarget(inputGraph, w0, w, i, e);
        return;
      }
      if tarjanVisited[j] == 0 {
        TarjanVisit(j);
        ChildVisited(inputGraph, w0, w, Now(), i, e);
      } else {
        KnownTarget(inputGraph, w0, w, i, e);
      }
      ImproveRoot(i, j);
    }

    /** The end of the loop body: take over a better root from an unassigned target. */
    method ImproveRoot(i: nat, j: nat)
      requires CanImprove(Now(), i, j)
      modifies this
      ensures Now() == Improve(old(Now()), i, j)
      ensures componentGraph == old(componentGraph)
    {
      if tarjanComponents[j] == INVALID_COMPONENT {
        if tarjanEntries[tarjanEntries[j].root].visitIndex < tarjanEntries[tarjanEntries[i].root].visitIndex {
          tarjanEntries := tarjanEntries[i := TarjanEntry(tarjanEntries[j].root, tarjanEntries[i].visitIndex)];
        }
      }
    }

    /** The tail of TarjanVisit: create the component from the top of the stack. */
    method PopComponent(ghost w0: Walk, i: nat)
      requires ValidGraph(inputGraph) && Inv(inputGraph, w0)
      requires i < |inputGraph| && LoopInv(inputGraph, w0, Now(), i, |inputGraph[i]|)
      requires Root(Now(), i) == i
      modifies this
      ensures Visited(inputGraph, w0, Now(), i)
      ensures componentGraph == old(componentGraph)
    {
      ghost var w := Now();
      OpenOnTop(inputGraph, w0, w, i, |inputGraph[i]|);
      ComponentCount(inputGraph, w, i);
      PopMembers(|w0.stack|, i);
      PopCompletes(inputGraph, w0, w, Now(), i);
    }

    /** The do-while loop: pop up to and including i into a new component. */
    method PopMembers(ghost base: nat, i: nat)
      requires StackOk(inputGraph, Now()) && base < |tarjanStack| && tarjanStack[base] == i
      requires |tarjanComponents| == |tarjanEntries| == |tarjanVisited|
      modifies this
      ensures Popped(base, old(Now()), Now())
      ensures componentGraph == old(componentGraph)
    {
      ghost var w := Now();
      var c := |components|;
      components := components + [[]];
      PoppingStarts(w, Now());
      var j := PopMember(w, base, c, i);
      while j != i
        invariant base <= |tarjanStack| && (j != i <==> base < |tarjanStack|)
        invariant Popping(w, Now(), |tarjanStack|)
        invariant componentGraph == old(componentGraph)
        decreases |tarjanStack|
      {
        j := PopMember(w, base, c, i);
      }
      PoppingEnds(w, Now(), base);
      components := components[c := SortNodes(components[c])];
    }

    /** One turn of the do-while loop. */
    method PopMember(ghost w: Walk, ghost base: nat, c: nat, i: nat) returns (j: nat)
      requires StackOk(inputGraph, w) && base < |tarjanStack| && base < |w.stack| && w.stack[base] == i
      requires Popping(w, Now(), |tarjanStack|) && c == |w.components|
      modifies this
      ensures |tarjanStack| == old(|tarjanStack|) - 1 && (j == i <==> |tarjanStack| == base)
      ensures Popping(w, Now(), |tarjanStack|)
      ensures componentGraph == old(componentGraph)
    {
      ghost var w' := Now();
      PopOne(inputGraph, w, i, base, |tarjanStack| - 1);
      PoppingStep(inputGraph, w, w', i, |tarjanStack| - 1);
      j := MoveTop(c, i);
    }

    method MoveTop(c: nat, i: nat) returns (j: nat)
      requires |tarjanStack| > 0 && tarjanStack[|tarjanStack| - 1] < |tarjanComponents| == |tarjanEntries|
      requires c + 1 == |components|
      modifies this
      ensures j == old(tarjanStack)[|old(tarjanStack)| - 1]
      ensures Now() == PopStep(old(Now()), i)
      ensures componentGraph == old(componentGraph)
    {
      j := tarjanStack[|tarjanStack| - 1];
      tarjanStack := tarjanStack[..|tarjanStack| - 1];
      tarjanComponents := tarjanComponents[j := c];
      tarjanEntries := tarjanEntries[j := TarjanEntry(i, tarjanEntries[j].visitIndex)];
      components := components[c := components[c] + [j]];
    }

    method Tarjan()
      requires ValidGraph(inputGraph) && components == [] && tarjanStack == []
      modifies this
      ensures Inv(inputGraph, Now())
      ensures forall v | 0 <= v < |inputGraph| :: Done(Now(), v)
    {
      var n := |inputGraph|;
      tarjanEntries := seq(n, _ => TarjanEntry(0, 0));
      tarjanComponents := seq(n, _ => INVALID_COMPONENT);
      tarjanWalkId := 0;
      tarjanVisited := seq(n, _ => 0);
      FreshWalk(inputGraph, Now());
      for i := 0 to n
        invariant Inv(inputGraph, Now()) && tarjanStack == []
        invariant forall v | 0 <= v < i :: Done(Now(), v)
      {
        ghost var w := Now();
        NothingOpen(inputGraph, w);
        if tarjanVisited[i] == 0 {
          tarjanWalkId := tarjanWalkId + 1;
          tarjanIndex := 0;
          NewWalk(inputGraph, w, Now());
          ghost var w0 := Now();
          TarjanVisit(i);
          FirstVisitAssigns(inputGraph, w0, Now(), i);
        }
      }
    }

    /** Map the inter-component edges to edges of the component graph. */
    method TransferEdges()
      requires ValidGraph(inputGraph) && |tarjanComponents| == |inputGraph|
      requires |componentGraph| == |components|
      requires forall c | 0 <= c < |components| :: componentGraph[c] == []
      requires forall v | 0 <= v < |inputGraph| :: tarjanComponents[v] < |components|
      modifies this`componentGraph
      ensures |componentGraph| == |components|
      ensures forall c | 0 <= c < |components| ::
                componentGraph[c] == Transferred(inputGraph, tarjanComponents, |inputGraph|, c)
    {
      for i := 0 to |inputGraph|
        invariant |componentGraph| == |components|
        invariant forall c | 0 <= c < |components| ::
                    componentGraph[c] == Transferred(inputGraph, tarjanComponents, i, c)
      {
        var iComponent := tarjanComponents[i];
        var nl := inputGraph[i];
        for k := 0 to |nl|
          invariant |componentGraph| == |components|
          invariant forall c | 0 <= c < |components| :: componentGraph[c] ==
                      Transferred(inputGraph, tarjanComponents, i, c)
                      + (if c == iComponent then InterComponent(nl[..k], tarjanComponents, c) else [])
        {
          var j := nl[k].dest;
          var jComponent := tarjanComponents[j];
          assert nl[..k + 1] == nl[..k] + [nl[k]];
          if iComponent != jComponent {
            componentGraph := componentGraph[iComponent := componentGraph[iComponent]
              + [Edge(jComponent, nl[k].strong, nl[k].cross, nl[k].backtrace)]];
          }
        }
        assert nl[..|nl|] == nl;
      }
    }

    method Compute()
      requires ValidGraph(inputGraph) && components == [] && tarjanStack == []
      modifies this
      ensures Condensation(inputGraph, tarjanComponents, components)
      ensures Transfers(inputGraph, tarjanComponents, components, componentGraph)
    {
      Tarjan();
      WalkIsCondensation(inputGraph, Now());
      componentGraph := [];
      componentGraph := seq(|components|, _ => []);
      TransferEdges();
    }
  }

  /** Visited by an earlier walk means assigned: the walk id replaces an on-stack flag. */
  lemma EarlierWalk(g: Graph, w: Walk, j: nat)
    requires StackOk(g, w) && Sized(g, w) && j < |g| && 0 < w.visited[j] < w.walkId
    ensures Done(w, j)
  {
    assert Open(w, j) ==> j in w.stack;
  }

  /** Everything on the stack reaches the next node to visit. */
  lemma ChildMayStart(g: Graph, w0: Walk, w: Walk, i: nat, k: nat)
    requires LoopInv(g, w0, w, i, k) && k < |g[i]|
    ensures forall p | 0 <= p < |w.stack| :: Reach(g, w.stack[p], g[i][k].dest)
    ensures Whites(w.visited) < Whites(w0.visited)
  {
    OpenOnTop(g, w0, w, i, k);
    FewerWhites(w0, w, i);
    var j := g[i][k].dest;
    assert HasEdge(g, i, j);
    forall p | 0 <= p < |w.stack|
      ensures Reach(g, w.stack[p], j)
    {
      assert p >= |w0.stack| ==> Mutual(g, i, w.stack[p]);
      ReachesThenEdge(EdgeRel(g), w.stack[p], i, j);
    }
  }

  /** The popped node is new to the popped part and is i exactly at the base. */
  lemma PopOne(g: Graph, w: Walk, i: nat, base: nat, t: nat)
    requires StackOk(g, w) && base <= t < |w.stack| && w.stack[base] == i
    ensures w.stack[t..] == [w.stack[t]] + w.stack[t + 1..]
    ensures w.stack[t] !in w.stack[t + 1..]
    ensures w.stack[t] == i <==> t == base
  {
    var above := w.stack[t + 1..];
    forall q | 0 <= q < |above|
      ensures above[q] != w.stack[t]
    {
      StackOrder(g, w, t + 1 + q, t);
    }
    StackOrder(g, w, t, base);
  }

  // ------------------------------------------------------------ whole results

  lemma FreshWalk(g: Graph, w: Walk)
    requires Sized(g, w) && w.components == [] && w.stack == []
    requires forall v | 0 <= v < |g| :: w.visited[v] == 0 && w.comps[v] == INVALID_COMPONENT
    ensures Inv(g, w)
  {
    assert forall v: nat :: !Open(w, v) && !Done(w, v);
  }

  lemma NothingOpen(g: Graph, w: Walk)
    requires Sized(g, w) && StackOk(g, w) && w.stack == []
    ensures forall v | 0 <= v < |g| && w.visited[v] > 0 :: Done(w, v)
  {
    assert forall v: nat :: Open(w, v) ==> v in w.stack;
    assert forall v | 0 <= v < |g| && w.visited[v] > 0 :: Done(w, v) || Open(w, v);
  }

  lemma NewWalk(g: Graph, w: Walk, w': Walk)
    requires Inv(g, w) && w.stack == []
    requires w' == w.(walkId := w'.walkId, index := w'.index)
    ensures Inv(g, w')
    ensures forall v: nat :: White(w, v) <==> White(w', v)
    ensures forall v: nat :: Done(w, v) <==> Done(w', v)
  {
    assert forall v: nat | Open(w', v) :: Open(w, v);
    assert RootsOk(g, w');
    DoneUntouched(g, w, w');
  }

  /** A visit from an empty stack ends with an empty stack: its start node is assigned. */
  lemma FirstVisitAssigns(g: Graph, w0: Walk, w: Walk, i: nat)
    requires Visited(g, w0, w, i) && w0.stack == []
    ensures Done(w, i) && w.stack == []
  {
    if Joined(g, w0, w, i) {
      assert Open(w, Root(w, i));
      OlderRoot(g, w0, w, i);
    }
  }

  /**
    comps is the map from nodes to components and components the list of
    components: the map is constant exactly on the classes of mutual
    reachability, the lists are its sorted nonempty inverse images, and no edge
    leads to a component of higher number.
   */
  ghost predicate Condensation(g: Graph, comps: seq<nat>, components: seq<seq<nat>>) {
    && |comps| == |g|
    && (forall v | 0 <= v < |g| :: comps[v] < |components|)
    && (forall u, v | 0 <= u < |g| && 0 <= v < |g| :: comps[u] == comps[v] <==> Mutual(g, u, v))
    && (forall c | 0 <= c < |components| :: |components[c]| > 0 && StrictlyIncreasing(components[c]))
    && (forall c, v: nat | 0 <= c < |components| :: v in components[c] <==> v < |g| && comps[v] == c)
    && (forall u: nat, v: nat | HasEdge(g, u, v) :: v < |g| && comps[v] <= comps[u])
  }

  lemma WalkIsCondensation(g: Graph, w: Walk)
    requires Inv(g, w) && forall v | 0 <= v < |g| :: Done(w, v)
    ensures Condensation(g, w.comps, w.components)
  {
    assert forall u: nat, v: nat | HasEdge(g, u, v) :: Done(w, u);
  }

  /** The edges of es that leave component c, renamed to the components they enter. */
  function InterComponent(es: seq<Edge>, comps: seq<nat>, c: nat): seq<Edge>
    requires forall k | 0 <= k < |es| :: es[k].dest < |comps|
  {
    if es == [] then []
    else
      var e := es[|es| - 1];
      InterComponent(es[..|es| - 1], comps, c)
      + (if comps[e.dest] != c then [Edge(comps[e.dest], e.strong, e.cross, e.backtrace)] else [])
  }

  /** The edges that the first n nodes contribute to component c. */
  function Transferred(g: Graph, comps: seq<nat>, n: nat, c: nat): seq<Edge>
    requires n <= |g| == |comps|
    requires forall u, k | 0 <= u < |g| && 0 <= k < |g[u]| :: g[u][k].dest < |g|
  {
    if n == 0 then []
    else
      Transferred(g, comps, n - 1, c)
      + (if comps[n - 1] == c then InterComponent(g[n - 1], comps, c) else [])
  }

  /** Edge number k of node u is an edge from component c that e stands for. */
  ghost predicate StandsFor(g: Graph, comps: seq<nat>, u: nat, k: nat, c: nat, e: Edge) {
    && u < |g| && u < |comps| && k < |g[u]| && g[u][k].dest < |comps|
    && comps[u] == c && comps[g[u][k].dest] == e.dest && e.dest != c
    && g[u][k].strong == e.strong && g[u][k].cross == e.cross && g[u][k].backtrace == e.backtrace
  }

  /** The edges of the first n nodes that e stands for, as (node, position) pairs. */
  ghost function Origins(g: Graph, comps: seq<nat>, n: nat, c: nat, e: Edge): set<(nat, nat)>
    requires n <= |g|
  {
    set u: nat, k: nat | u < n && k < |g[u]| && StandsFor(g, comps, u, k, c, e) :: (u, k)
  }

  ghost function RowOrigins(g: Graph, comps: seq<nat>, u: nat, m: nat, c: nat, e: Edge): set<(nat, nat)> {
    set k: nat | k < m && StandsFor(g, comps, u, k, c, e) :: (u, k)
  }

  /** One more edge of a row adds itself, or nothing. */
  lemma RowStep(g: Graph, comps: seq<nat>, u: nat, m: nat, n: nat, e: Edge)
    requires ValidGraph(g) && |comps| == |g| && u < |g| && n == m + 1 <= |g[u]|
    ensures var before, after := InterComponent(g[u][..m], comps, comps[u]), InterComponent(g[u][..n], comps, comps[u]);
            multiset(after)[e] == multiset(before)[e] + (if StandsFor(g, comps, u, m, comps[u], e) then 1 else 0)
  {
    InterComponentStep(g[u], comps, comps[u], m, n);
  }

  lemma InterComponentStep(es: seq<Edge>, comps: seq<nat>, c: nat, m: nat, n: nat)
    requires n == m + 1 <= |es| && forall k | 0 <= k < |es| :: es[k].dest < |comps|
    ensures var e := es[m];
            InterComponent(es[..n], comps, c) == InterComponent(es[..m], comps, c)
              + (if comps[e.dest] != c then [Edge(comps[e.dest], e.strong, e.cross, e.backtrace)] else [])
  {
    assert es[..n][..m] == es[..m];
  }

  lemma RowOriginsStep(g: Graph, comps: seq<nat>, u: nat, m: nat, n: nat, c: nat, e: Edge)
    requires n == m + 1
    ensures |RowOrigins(g, comps, u, n, c, e)| ==
            |RowOrigins(g, comps, u, m, c, e)| + (if StandsFor(g, comps, u, m, c, e) then 1 else 0)
  {
    var before, after := RowOrigins(g, comps, u, m, c, e), RowOrigins(g, comps, u, n, c, e);
    if StandsFor(g, comps, u, m, c, e) {
      assert after == before + {(u, m)};
    } else {
      assert after == before;
    }
  }

  lemma {:induction false} RowMultiplicity(g: Graph, comps: seq<nat>, u: nat, m: nat, e: Edge)
    requires ValidGraph(g) && |comps| == |g| && u < |g| && m <= |g[u]|
    ensures multiset(InterComponent(g[u][..m], comps, comps[u]))[e]
            == |RowOrigins(g, comps, u, m, comps[u], e)|
  {
    var c := comps[u];
    if m == 0 {
      assert RowOrigins(g, comps, u, 0, c, e) == {};
    } else {
      RowMultiplicity(g, comps, u, m - 1, e);
      RowStep(g, comps, u, m - 1, m, e);
      RowOriginsStep(g, comps, u, m - 1, m, c, e);
    }
  }

  /**
    The edges of the component graph keep multiplicity and flags: an edge e
    leaves c exactly as often as there are edges in the graph that lead from
    component c to the component e enters, with e's flags and backtrace.
   */
  lemma {:induction false} TransferMultiplicity(g: Graph, comps: seq<nat>, n: nat, c: nat, e: Edge)
    requires ValidGraph(g) && |comps| == |g| && n <= |g|
    ensures multiset(Transferred(g, comps, n, c))[e] == |Origins(g, comps, n, c, e)|
  {
    if n == 0 {
      assert Origins(g, comps, 0, c, e) == {};
    } else {
      var u := n - 1;
      TransferMultiplicity(g, comps, u, c, e);
      var row := RowOrigins(g, comps, u, |g[u]|, c, e);
      assert Origins(g, comps, n, c, e) == Origins(g, comps, u, c, e) + row;
      assert Origins(g, comps, u, c, e) !! row;
      if comps[u] == c {
        RowMultiplicity(g, comps, u, |g[u]|, e);
        assert g[u][..|g[u]|] == g[u];
      } else {
        assert row == {};
      }
    }
  }

  /** Edge number k of node u leaves component c. */
  ghost predicate Leaves(g: Graph, comps: seq<nat>, u: nat, k: nat, c: nat) {
    u < |g| && u < |comps| && k < |g[u]| && g[u][k].dest < |comps| && comps[u] == c && comps[g[u][k].dest] != c
  }

  ghost predicate Earlier(a: (nat, nat), b: (nat, nat)) {
    a.0 < b.0 || (a.0 == b.0 && a.1 < b.1)
  }

  /**
    es are the edges that leave c from the first n nodes, those of node n itself only
    up to position m: from says which edge each one stands for, and they stand in the
    order of nodes and of positions.
   */
  ghost predicate InOrder(
      g: Graph, comps: seq<nat>, n: nat, m: nat, c: nat, es: seq<Edge>, from: seq<(nat, nat)>)
  {
    && |from| == |es|
    && (forall i | 0 <= i < |es| :: StandsFor(g, comps, from[i].0, from[i].1, c, es[i]) && Earlier(from[i], (n, m)))
    && (forall i, j | 0 <= i < j < |es| :: Earlier(from[i], from[j]))
    && (forall u: nat, k: nat | Leaves(g, comps, u, k, c) && Earlier((u, k), (n, m)) :: (u, k) in from)
  }

  /** The edges of one node are appended in their order. */
  lemma {:induction false} RowOrder(
      g: Graph, comps: seq<nat>, u: nat, m: nat, c: nat, es: seq<Edge>, from: seq<(nat, nat)>)
    returns (from': seq<(nat, nat)>)
    requires ValidGraph(g) && |comps| == |g| && u < |g| && comps[u] == c && m <= |g[u]|
    requires InOrder(g, comps, u, 0, c, es, from)
    ensures InOrder(g, comps, u, m, c, es + InterComponent(g[u][..m], comps, c), from')
  {
    if m == 0 {
      from' := from;
      assert es + InterComponent(g[u][..0], comps, c) == es;
    } else {
      var k := m - 1;
      from' := RowOrder(g, comps, u, k, c, es, from);
      var before, e := es + InterComponent(g[u][..k], comps, c), g[u][k];
      assert g[u][..m][..k] == g[u][..k];
      if comps[e.dest] != c {
        var e' := Edge(comps[e.dest], e.strong, e.cross, e.backtrace);
        assert es + InterComponent(g[u][..m], comps, c) == before + [e'];
        OneMoreEdge(g, comps, u, k, m, c, before, from', e');
        from' := from' + [(u, k)];
      } else {
        assert es + InterComponent(g[u][..m], comps, c) == before;
        NoMoreEdge(g, comps, u, k, m, c, before, from');
      }
    }
  }

  lemma OneMoreEdge(g: Graph, comps: seq<nat>, u: nat, k: nat, m: nat, c: nat,
                    es: seq<Edge>, from: seq<(nat, nat)>, e: Edge)
    requires m == k + 1 && InOrder(g, comps, u, k, c, es, from) && StandsFor(g, comps, u, k, c, e)
    ensures InOrder(g, comps, u, m, c, es + [e], from + [(u, k)])
  {
    var from' := from + [(u, k)];
    forall x: nat, y: nat | Leaves(g, comps, x, y, c) && Earlier((x, y), (u, m))
      ensures (x, y) in from'
    {
      assert Earlier((x, y), (u, k)) || (x, y) == (u, k);
    }
  }

  lemma NoMoreEdge(g: Graph, comps: seq<nat>, u: nat, k: nat, m: nat, c: nat,
                   es: seq<Edge>, from: seq<(nat, nat)>)
    requires m == k + 1 && InOrder(g, comps, u, k, c, es, from) && !Leaves(g, comps, u, k, c)
    ensures InOrder(g, comps, u, m, c, es, from)
  {
    forall x: nat, y: nat | Leaves(g, comps, x, y, c) && Earlier((x, y), (u, m))
      ensures (x, y) in from
    {
      assert Earlier((x, y), (u, k)) || (x, y) == (u, k);
    }
  }

  /** A node of another component, and a node that is done with, adds nothing more. */
  lemma NextNode(g: Graph, comps: seq<nat>, u: nat, m: nat, c: nat, es: seq<Edge>, from: seq<(nat, nat)>)
    requires u < |g| && u < |comps| && InOrder(g, comps, u, m, c, es, from)
    requires m == |g[u]| || comps[u] != c
    ensures InOrder(g, comps, u + 1, 0, c, es, from)
  {
    forall x: nat, y: nat | Leaves(g, comps, x, y, c) && Earlier((x, y), (u + 1, 0))
      ensures (x, y) in from
    {
      assert Earlier((x, y), (u, m));
    }
  }

  /**
    A component's edges stand in the order of the graph: by their nodes, and for one
    node in the order of its edges, none left out and none twice.
   */
  lemma {:induction false} TransferOrder(g: Graph, comps: seq<nat>, n: nat, c: nat) returns (from: seq<(nat, nat)>)
    requires ValidGraph(g) && |comps| == |g| && n <= |g|
    ensures InOrder(g, comps, n, 0, c, Transferred(g, comps, n, c), from)
  {
    if n == 0 {
      from := [];
    } else {
      var u := n - 1;
      from := TransferOrder(g, comps, u, c);
      var before := Transferred(g, comps, u, c);
      if comps[u] == c {
        from := RowOrder(g, comps, u, |g[u]|, c, before, from);
        assert g[u][..|g[u]|] == g[u];
        NextNode(g, comps, u, |g[u]|, c, before + InterComponent(g[u], comps, c), from);
      } else {
        assert before + [] == before;
        NextNode(g, comps, u, 0, c, before, from);
      }
    }
  }

  /** cg is the edge structure that Compute leaves for the condensation of g. */
  ghost predicate Transfers(g: Graph, comps: seq<nat>, components: seq<seq<nat>>, cg: Graph) {
    && ValidGraph(g) && Condensation(g, comps, components) && |cg| == |components|
    && forall c | 0 <= c < |cg| :: cg[c] == Transferred(g, comps, |g|, c)
  }

  /** The component graph has an edge exactly where the graph joins two components. */
  lemma ComponentEdge(g: Graph, comps: seq<nat>, components: seq<seq<nat>>, cg: Graph, c: nat, d: nat)
    requires Transfers(g, comps, components, cg)
    ensures HasEdge(cg, c, d) <==>
            c != d && exists u: nat, v: nat :: HasEdge(g, u, v) && comps[u] == c && comps[v] == d
  {
    if HasEdge(cg, c, d) {
      var k :| 0 <= k < |cg[c]| && cg[c][k].dest == d;
      var e := cg[c][k];
      assert e in multiset(cg[c]);
      TransferMultiplicity(g, comps, |g|, c, e);
      var o :| o in Origins(g, comps, |g|, c, e);
      assert HasEdge(g, o.0, g[o.0][o.1].dest);
    }
    if c != d {
      forall u: nat, v: nat | HasEdge(g, u, v) && comps[u] == c && comps[v] == d
        ensures HasEdge(cg, c, d)
      {
        var k :| 0 <= k < |g[u]| && g[u][k].dest == v;
        var e := Edge(d, g[u][k].strong, g[u][k].cross, g[u][k].backtrace);
        assert StandsFor(g, comps, u, k, c, e);
        assert (u, k) in Origins(g, comps, |g|, c, e);
        TransferMultiplicity(g, comps, |g|, c, e);
        assert e in multiset(cg[c]);
        var m :| 0 <= m < |cg[c]| && cg[c][m] == e;
      }
    }
  }

  ghost predicate NoHigher(d: nat, c: nat) {
    d <= c
  }

  /** u reaches every node of component d. */
  ghost predicate ReachesClass(g: Graph, comps: seq<nat>, u: nat, d: nat) {
    forall y: nat | y < |g| && y < |comps| && comps[y] == d :: Reach(g, u, y)
  }

  /** The component graph is acyclic: reachability only goes to lower numbers. */
  lemma ComponentGraphAcyclic(g: Graph, comps: seq<nat>, components: seq<seq<nat>>, cg: Graph, c: nat)
    requires Transfers(g, comps, components, cg)
    ensures forall d: nat | Reach(cg, c, d) :: d <= c
    ensures !ReachesPlus(EdgeRel(cg), c, c)
  {
    forall x: nat, d: nat | Reach(cg, x, d)
      ensures d <= x
    {
      forall a: nat, b: nat | EdgeRel(cg)(a, b)
        ensures b < a
      {
        ComponentEdge(g, comps, components, cg, a, b);
      }
      ClosedUnderReach(EdgeRel(cg), (iset y: nat | NoHigher(y, x)), x, d);
    }
    forall m: nat | EdgeRel(cg)(c, m)
      ensures !Reach(cg, m, c)
    {
      ComponentEdge(g, comps, components, cg, c, m);
    }
  }

  /** Condensing changes no reachability: u reaches v iff u's component reaches v's. */
  lemma CondensationReach(g: Graph, comps: seq<nat>, components: seq<seq<nat>>, cg: Graph, u: nat, v: nat)
    requires Transfers(g, comps, components, cg) && u < |g| && v < |g|
    ensures Reach(g, u, v) <==> Reach(cg, comps[u], comps[v])
  {
    if Reach(g, u, v) {
      var s := iset y: nat | y < |g| && Reach(cg, comps[u], comps[y]);
      ReachesSelf(EdgeRel(cg), comps[u]);
      forall x: nat, y: nat | x in s && EdgeRel(g)(x, y)
        ensures y in s
      {
        assert HasEdge(g, x, y);
        ComponentEdge(g, comps, components, cg, comps[x], comps[y]);
        if comps[x] != comps[y] {
          ReachesThenEdge(EdgeRel(cg), comps[u], comps[x], comps[y]);
        }
      }
      ClosedUnderReach(EdgeRel(g), s, u, v);
    }
    if Reach(cg, comps[u], comps[v]) {
      var s := iset d: nat | ReachesClass(g, comps, u, d);
      forall y: nat | y < |g| && comps[y] == comps[u]
        ensures Reach(g, u, y)
      {
        assert Mutual(g, u, y);
      }
      forall c: nat, d: nat | c in s && EdgeRel(cg)(c, d)
        ensures d in s
      {
        EdgeIntoClass(g, comps, components, cg, u, c, d);
      }
      ClosedUnderReach(EdgeRel(cg), s, comps[u], comps[v]);
    }
  }

  lemma EdgeIntoClass(g: Graph, comps: seq<nat>, components: seq<seq<nat>>, cg: Graph, u: nat, c: nat, d: nat)
    requires Transfers(g, comps, components, cg) && u < |g| && HasEdge(cg, c, d)
    requires ReachesClass(g, comps, u, c)
    ensures ReachesClass(g, comps, u, d)
  {
    ComponentEdge(g, comps, components, cg, c, d);
    var a: nat, b: nat :| HasEdge(g, a, b) && comps[a] == c && comps[b] == d;
    ReachesThenEdge(EdgeRel(g), u, a, b);
    forall y: nat | y < |g| && comps[y] == d
      ensures Reach(g, u, y)
    {
      assert Mutual(g, b, y);
      ReachesTrans(EdgeRel(g), u, b, y);
    }
  }
}
