/** The in-place range algorithms of cmAlgorithms.h, on positions in one array. */
module Algorithms {

  /** std::rotate followed by the distance computation of cmRotate. */
  method Rotate<T>(a: array<T>, first: nat, middle: nat, last: nat) returns (it: nat)
    requires first <= middle <= last <= a.Length
    modifies a
    ensures it == first + (last - middle)
    ensures a[first..last] == old(a[middle..last]) + old(a[first..middle])
    ensures a[..first] == old(a[..first]) && a[last..] == old(a[last..])
  {
    var rotated := a[middle..last] + a[first..middle];
    forall k | first <= k < last {
      a[k] := rotated[k - first];
    }
    assert a[first..last] == rotated;
    it := first + (last - middle);
  }

  /** t' is t with the c elements at w moved to the end of the range that starts at w and ends before p. */
  ghost predicate Moved<T>(t: seq<T>, t': seq<T>, w: nat, c: nat, p: nat) {
    && w + c <= p <= |t| == |t'|
    && t'[w..p] == t[w + c..p] + t[w..w + c] && t'[..w] == t[..w] && t'[p..] == t[p..]
  }

  /** ContainerAlgorithms::RemoveN: the first n elements of the range go to its end. */
  method RemoveN<T>(a: array<T>, i1: nat, i2: nat, n: nat) returns (it: nat)
    requires i1 + n <= i2 <= a.Length
    modifies a
    ensures it == i2 - n
    ensures Moved(old(a[..]), a[..], i1, n, i2)
  {
    it := Rotate(a, i1, i1 + n, i2);
    assert a[..][i1..i2] == a[i1..i2] && a[..][..i1] == a[..i1] && a[..][i2..] == a[i2..];
  }

  // ---------------------------------------------------------- cmRemoveIndices

  /** Strictly increasing positions inside a range of length n. */
  ghost predicate Indices(rem: seq<nat>, n: nat) {
    && (forall k | 0 <= k < |rem| :: rem[k] < n)
    && (forall j, k | 0 <= j < k < |rem| :: rem[j] < rem[k])
  }

  /** The elements of s whose position, counted from off, is not listed. */
  function Kept<T>(s: seq<T>, rem: seq<nat>, n: nat): seq<T>
    requires n <= |s|
  {
    if n == 0 then [] else Kept(s, rem, n - 1) + (if n - 1 in rem then [] else [s[n - 1]])
  }

  /** The elements at the listed positions, in the order of the list. */
  function Picked<T>(s: seq<T>, rem: seq<nat>): seq<T>
    requires forall k | 0 <= k < |rem| :: rem[k] < |s|
  {
    seq(|rem|, k requires 0 <= k < |rem| => s[rem[k]])
  }

  /** Between two listed positions everything is kept. */
  lemma {:induction false} KeptGap<T>(s: seq<T>, rem: seq<nat>, from: nat, to: nat)
    requires from <= to <= |s| && forall p | from <= p < to :: p !in rem
    ensures Kept(s, rem, to) == Kept(s, rem, from) + s[from..to]
  {
    if from < to {
      KeptGap(s, rem, from, to - 1);
      assert s[from..to] == s[from..to - 1] + [s[to - 1]];
    } else {
      assert s[from..to] == [];
    }
  }

  /** How many elements are kept before the k-th removed one. */
  lemma {:induction false} KeptBefore<T>(s: seq<T>, rem: seq<nat>, k: nat)
    requires Indices(rem, |s|) && k < |rem|
    ensures |Kept(s, rem, rem[k])| == rem[k] - k
  {
    if k == 0 {
      KeptGap(s, rem, 0, rem[0]);
    } else {
      KeptBefore(s, rem, k - 1);
      NotListed(rem, |s|, k - 1);
      KeptGap(s, rem, rem[k - 1] + 1, rem[k]);
    }
  }

  lemma NotListed(rem: seq<nat>, n: nat, k: nat)
    requires Indices(rem, n) && k < |rem|
    ensures forall p: nat | rem[k] < p && (k + 1 < |rem| ==> p < rem[k + 1]) :: p !in rem
    ensures rem[k] in rem
  {
  }

  /** Moving the second of four pieces behind the third. */
  lemma MovedPieces<T>(t: seq<T>, t': seq<T>, x: seq<T>, m: seq<T>, g: seq<T>, y: seq<T>)
    requires t == x + m + g + y && Moved(t, t', |x|, |m|, |x| + |m| + |g|)
    ensures t' == x + g + m + y
  {
    var w, p := |x|, |x| + |m| + |g|;
    assert t' == t'[..w] + t'[w..p] + t'[p..];
    assert t[..w] == x && t[w..w + |m|] == m && t[w + |m|..p] == g && t[p..] == y;
  }

  /** The removed elements found so far, c of them, gathered behind what is kept before them. */
  ghost predicate Gathered<T>(s: seq<T>, t: seq<T>, rem: seq<nat>, c: nat)
    requires Indices(rem, |s|)
  {
    && 1 <= c <= |rem|
    && t == Kept(s, rem, rem[c - 1]) + Picked(s, rem[..c]) + s[rem[c - 1] + 1..]
  }

  lemma GatheredFirst<T>(s: seq<T>, rem: seq<nat>)
    requires Indices(rem, |s|) && rem != []
    ensures Gathered(s, s, rem, 1)
  {
    var p := rem[0];
    KeptGap(s, rem, 0, p);
    assert Kept(s, rem, 0) + s[0..p] == s[..p];
    assert Picked(s, rem[..1]) == [s[p]];
    assert s == s[..p] + [s[p]] + s[p + 1..];
  }

  lemma Regroup<T>(x: seq<T>, m: seq<T>, g: seq<T>, e: seq<T>, z: seq<T>)
    ensures x + m + (g + (e + z)) == x + m + g + (e + z)
    ensures x + g + m + (e + z) == (x + g) + (m + e) + z
  {
  }

  /** What lies between two removed elements, and the second of them. */
  lemma Between<T>(s: seq<T>, rem: seq<nat>, c: nat)
    requires Indices(rem, |s|) && 1 <= c < |rem|
    ensures s[rem[c - 1] + 1..] == s[rem[c - 1] + 1..rem[c]] + ([s[rem[c]]] + s[rem[c] + 1..])
    ensures Picked(s, rem[..c + 1]) == Picked(s, rem[..c]) + [s[rem[c]]]
    ensures Kept(s, rem, rem[c]) == Kept(s, rem, rem[c - 1]) + s[rem[c - 1] + 1..rem[c]]
    ensures |Kept(s, rem, rem[c - 1])| + c == rem[c - 1] + 1
  {
    KeptBefore(s, rem, c - 1);
    NotListed(rem, |s|, c - 1);
    KeptGap(s, rem, rem[c - 1] + 1, rem[c]);
  }

  /** Up to the next removed element everything is kept, so it moves in front of the removed ones. */
  method GatherMore<T>(a: array<T>, writer: nat, rem: seq<nat>, count: nat, ghost s: seq<T>) returns (it: nat)
    requires Indices(rem, |s|) && Gathered(s, a[..], rem, count) && count < |rem| && |s| == a.Length
    requires writer + count == rem[count - 1] + 1
    modifies a
    ensures Gathered(s, a[..], rem, count + 1) && it + count == rem[count]
  {
    ghost var x, m := Kept(s, rem, rem[count - 1]), Picked(s, rem[..count]);
    ghost var g, e, z := s[rem[count - 1] + 1..rem[count]], [s[rem[count]]], s[rem[count] + 1..];
    Between(s, rem, count);
    Regroup(x, m, g, e, z);
    it := MovePieces(a, writer, rem[count], count, x, m, g, e + z);
  }

  method MovePieces<T>(a: array<T>, i1: nat, i2: nat, n: nat,
                       ghost x: seq<T>, ghost m: seq<T>, ghost g: seq<T>, ghost y: seq<T>) returns (it: nat)
    requires a[..] == x + m + g + y && i1 == |x| && n == |m| && i2 == |x| + |m| + |g|
    modifies a
    ensures a[..] == x + g + m + y && it == i2 - n
  {
    ghost var t := a[..];
    it := RemoveN(a, i1, i2, n);
    MovedPieces(t, a[..], x, m, g, y);
  }

  lemma LastPieces<T>(s: seq<T>, rem: seq<nat>)
    requires Indices(rem, |s|) && rem != []
    ensures |Kept(s, rem, rem[|rem| - 1])| + |rem| == rem[|rem| - 1] + 1
    ensures Kept(s, rem, |s|) == Kept(s, rem, rem[|rem| - 1]) + s[rem[|rem| - 1] + 1..]
    ensures rem[..|rem|] == rem
  {
    var p := rem[|rem| - 1];
    KeptBefore(s, rem, |rem| - 1);
    NotListed(rem, |s|, |rem| - 1);
    KeptGap(s, rem, p + 1, |s|);
    assert s[p + 1..|s|] == s[p + 1..];
  }

  /** The last move takes all removed elements behind the rest of the range. */
  method GatherLast<T>(a: array<T>, writer: nat, rem: seq<nat>, ghost s: seq<T>) returns (it: nat)
    requires Indices(rem, |s|) && rem != [] && Gathered(s, a[..], rem, |rem|) && |s| == a.Length
    requires writer + |rem| == rem[|rem| - 1] + 1
    modifies a
    ensures a[..] == Kept(s, rem, |s|) + Picked(s, rem)
    ensures it == |Kept(s, rem, |s|)| == |s| - |rem|
  {
    ghost var x, m, g := Kept(s, rem, rem[|rem| - 1]), Picked(s, rem), s[rem[|rem| - 1] + 1..];
    LastPieces(s, rem);
    assert x + m + g == x + m + g + [];
    it := MovePieces(a, writer, a.Length, |rem|, x, m, g, []);
    assert x + g + m + [] == x + g + m;
  }

  /**
    cmRemoveIndices: a stable partition.  The kept elements come first, in order,
    then the removed ones, in order; the result is the position between them.
   */
  method RemoveIndices<T>(a: array<T>, rem: seq<nat>) returns (it: nat)
    requires Indices(rem, a.Length)
    modifies a
    ensures a[..] == Kept(old(a[..]), rem, a.Length) + Picked(old(a[..]), rem)
    ensures it == |Kept(old(a[..]), rem, a.Length)| == a.Length - |rem|
  {
    ghost var s := a[..];
    if rem == [] {
      KeptGap(s, rem, 0, |s|);
      return a.Length;
    }
    var writer := rem[0];
    var pivot := writer;
    var prevRem := rem[0];
    var count := 1;
    GatheredFirst(s, rem);
    while writer != a.Length && count != |rem|
      invariant 1 <= count <= |rem| && prevRem == rem[count - 1] == pivot
      invariant Gathered(s, a[..], rem, count) && writer + count == pivot + 1
      decreases |rem| - count
    {
      pivot := pivot + (rem[count] - prevRem);
      prevRem := rem[count];
      writer := GatherMore(a, writer, rem, count, s);
      count := count + 1;
    }
    it := GatherLast(a, writer, rem, s);
  }

  // -------------------------------------------------------- cmRemoveDuplicates

  /** The first occurrences of the elements of s, in order. */
  function Firsts<T(==)>(s: seq<T>): seq<T> {
    if s == [] then []
    else
      var t := Firsts(s[..|s| - 1]);
      if s[|s| - 1] in t then t else t + [s[|s| - 1]]
  }

  /** Position k holds an element that does not occur before. */
  ghost predicate IsFirst<T>(s: seq<T>, k: nat) {
    k < |s| && s[k] !in s[..k]
  }

  /** The positions of first occurrences, increasing. */
  ghost function FirstPositions<T>(s: seq<T>, n: nat): seq<nat>
    requires n <= |s|
  {
    if n == 0 then [] else FirstPositions(s, n - 1) + (if IsFirst(s, n - 1) then [n - 1] else [])
  }

  /** Firsts has the same elements as s, each once. */
  lemma {:induction false} FirstsExact<T>(s: seq<T>)
    ensures forall x :: x in Firsts(s) <==> x in s
    ensures forall j, k | 0 <= j < k < |Firsts(s)| :: Firsts(s)[j] != Firsts(s)[k]
  {
    if s != [] {
      FirstsExact(s[..|s| - 1]);
      assert forall x :: x in s <==> x in s[..|s| - 1] || x == s[|s| - 1];
    }
  }

  /** Firsts lists the elements at the first positions, in order: it is what is left of s. */
  lemma {:induction false} FirstsInOrder<T>(s: seq<T>, n: nat)
    requires n <= |s|
    ensures forall k | 0 <= k < |FirstPositions(s, n)| :: FirstPositions(s, n)[k] < n
    ensures forall j, k | 0 <= j < k < |FirstPositions(s, n)| ::
              FirstPositions(s, n)[j] < FirstPositions(s, n)[k]
    ensures Firsts(s[..n]) == Picked(s, FirstPositions(s, n))
  {
    if n > 0 {
      FirstsInOrder(s, n - 1);
      FirstsExact(s[..n - 1]);
      assert s[..n][..n - 1] == s[..n - 1];
      assert s[..n - 1 + 1] == s[..n];
    }
  }

  /** A value left behind by a move: unspecified, so any value at all. */
  method MovedFrom<T(0)>() returns (x: T)
  {
    x := *;
  }

  /**
    The unordered_set of cmRemoveDuplicates: positions in the range, filed under
    the hash that their element has when they are inserted, and compared by the
    elements that the positions hold when they are looked up.
   */
  class PositionSet<T(==)> {
    const hash: T -> int
    var buckets: map<int, seq<nat>>
    ghost var filed: map<nat, T>

    constructor (hash: T -> int)
      ensures this.hash == hash && Valid() && filed == map[]
    {
      this.hash, buckets, filed := hash, map[], map[];
    }

    /** A position is in the bucket of the element it was filed with, and in no other. */
    ghost predicate Valid()
      reads this
    {
      && (forall h, u | h in buckets && u in buckets[h] :: u in filed && hash(filed[u]) == h)
      && (forall u | u in filed :: hash(filed[u]) in buckets && u in buckets[hash(filed[u])])
    }

    /** cm::contains: looks in the bucket of the element at hand, and compares elements as they are now. */
    method Contains(a: array<T>, at: nat) returns (found: bool)
      requires Valid() && at < a.Length && forall u | u in filed :: u < a.Length
      ensures found <==> exists u :: u in filed && hash(filed[u]) == hash(a[at]) && a[u] == a[at]
    {
      var h := hash(a[at]);
      if h !in buckets {
        return false;
      }
      var bucket := buckets[h];
      assert forall i | 0 <= i < |bucket| :: bucket[i] in bucket && bucket[i] in filed;
      for k := 0 to |bucket|
        invariant forall i | 0 <= i < k :: a[bucket[i]] != a[at]
      {
        if a[bucket[k]] == a[at] {
          return true;
        }
      }
      return false;
    }

    /** insert: a position is filed unless an equal element is found. */
    method Insert(a: array<T>, at: nat)
      requires Valid() && at < a.Length && at !in filed && forall u | u in filed :: u < a.Length
      modifies this
      ensures Valid()
      ensures filed == if exists u :: u in old(filed) && hash(old(filed)[u]) == hash(a[at]) && a[u] == a[at]
                       then old(filed) else old(filed)[at := a[at]]
    {
      var found := Contains(a, at);
      if !found {
        var h := hash(a[at]);
        buckets := buckets[h := (if h in buckets then buckets[h] else []) + [at]];
        filed := filed[at := a[at]];
      }
    }
  }

  /** While what was filed is intact, looking up by bucket finds exactly the equal elements. */
  lemma FoundIsPresent<T>(hash: T -> int, filed: map<nat, T>, s: seq<T>, x: T)
    requires forall u | u in filed :: u < |s| && s[u] == filed[u]
    ensures (exists u :: u in filed && hash(filed[u]) == hash(x) && s[u] == x) <==> exists u :: u in filed && s[u] == x
  {
  }

  /**
    The first elements of s are dealt with: their first occurrences are in front
    in t, each filed under its position and unchanged since, and the rest is as it was.
   */
  ghost predicate Deduplicated<T>(s: seq<T>, t: seq<T>, filed: map<nat, T>, result: nat, first: nat) {
    && result <= first <= |s| == |t|
    && t[..result] == Firsts(s[..first]) && t[first..] == s[first..]
    && (forall u :: u in filed <==> 0 <= u < result) && (forall u | u in filed :: t[u] == filed[u])
  }

  /** Is the next element among the kept ones?  The bucket of its hash tells. */
  lemma KnownElement<T>(hash: T -> int, s: seq<T>, t: seq<T>, filed: map<nat, T>, result: nat, first: nat)
    requires Deduplicated(s, t, filed, result, first) && first < |s|
    ensures t[first] == s[first]
    ensures (exists u :: u in filed && hash(filed[u]) == hash(t[first]) && t[u] == t[first])
            <==> s[first] in Firsts(s[..first])
    ensures s[first] in Firsts(s[..first]) ==> Deduplicated(s, t, filed, result, first + 1)
  {
    assert s[..first + 1][..first] == s[..first];
    assert t[first..][0] == s[first..][0];
    assert t[first + 1..] == t[first..][1..] && s[first + 1..] == s[first..][1..];
    FoundIsPresent(hash, filed, t, t[first]);
    assert forall u | 0 <= u < result :: t[u] == t[..result][u];
  }

  /** A new element is kept and filed; the position it was moved from may hold anything. */
  lemma KeptElement<T>(
      s: seq<T>, t: seq<T>, t': seq<T>, filed: map<nat, T>, result: nat, first: nat)
    requires Deduplicated(s, t, filed, result, first) && first < |s| && s[first] !in Firsts(s[..first])
    requires |t'| == |t| && t'[..result] == t[..result] && t'[result] == s[first] && t'[first + 1..] == t[first + 1..]
    ensures Deduplicated(s, t', filed[result := t'[result]], result + 1, first + 1)
    ensures forall u | u in filed :: t'[u] == filed[u]
  {
    assert s[..first + 1][..first] == s[..first];
    assert t[first + 1..] == t[first..][1..] && s[first + 1..] == s[first..][1..];
    assert t'[..result + 1] == t'[..result] + [s[first]];
    assert forall u | 0 <= u < result :: t'[u] == t'[..result][u] == t[..result][u] == t[u];
  }

  /** The branch for a new element: it is moved to the front and its position is filed. */
  method Keep<T(0)>(a: array<T>, uniq: PositionSet<T>, result: nat, first: nat, ghost s: seq<T>)
    requires uniq.Valid() && Deduplicated(s, a[..], uniq.filed, result, first)
    requires first < a.Length && s[first] !in Firsts(s[..first])
    modifies a, uniq
    ensures uniq.Valid() && Deduplicated(s, a[..], uniq.filed, result + 1, first + 1)
  {
    ghost var t := a[..];
    assert a[first] == t[first..][0] == s[first..][0] == s[first];
    if result != first {
      a[result] := a[first];
      var junk := MovedFrom();
      a[first] := junk;
    }
    assert a[..][..result] == t[..result] && a[..][first + 1..] == t[first + 1..];
    KeptElement(s, t, a[..], uniq.filed, result, first);
    FoundIsPresent(uniq.hash, uniq.filed, a[..], a[result]);
    assert forall u | 0 <= u < result :: a[u] == Firsts(s[..first])[u];
    uniq.Insert(a, result);
  }

  /**
    cmRemoveDuplicates: the first occurrences move to the front, in order.  The
    set holds positions inside the range that is being overwritten; no position
    that is filed is ever overwritten.
   */
  method RemoveDuplicates<T(==, 0)>(a: array<T>, hash: T -> int) returns (result: nat)
    modifies a
    ensures result <= a.Length && a[..result] == Firsts(old(a[..]))
  {
    ghost var s := a[..];
    var uniq := new PositionSet(hash);
    result := 0;
    var first := 0;
    while first != a.Length
      invariant fresh(uniq) && uniq.Valid() && uniq.hash == hash
      invariant Deduplicated(s, a[..], uniq.filed, result, first)
      decreases a.Length - first
    {
      KnownElement(hash, s, a[..], uniq.filed, result, first);
      var found := uniq.Contains(a, first);
      if !found {
        Keep(a, uniq, result, first, s);
        result := result + 1;
      }
      first := first + 1;
    }
    assert s[..first] == s;
  }
}
