/** The node objects of the attribute store: a heap of nodes that point to their parent and to
    their children. A pointer is a key of the heap. */
module NodeHeap {
  import opened Common
  import opened StoreLedger

  type Ptr = nat

  datatype Node = Node(id: Id, typ: nat, parent: Option<Ptr>, children: seq<Ptr>, reported: seq<Byte>,
      desired: seq<Byte>)

  type Heap = map<Ptr, Node>

  /** The distance of every node from the root. */
  type Levels = map<Ptr, nat>

  ghost predicate LinkedDown(h: Heap, lev: Levels) {
    forall p, i {:trigger h[p].children[i]} :: p in h && 0 <= i < |h[p].children| ==>
      var c := h[p].children[i];
      c in h && c in lev && p in lev && h[c].parent == Some(p) && lev[c] == lev[p] + 1
  }

  ghost predicate LinkedUp(h: Heap, root: Ptr) {
    forall p {:trigger h[p].parent} :: p in h && p != root ==>
      h[p].parent.Some? && h[p].parent.value in h && p in h[h[p].parent.value].children
  }

  ghost predicate NoTwins(h: Heap) {
    forall p, i, j :: p in h && 0 <= i < j < |h[p].children| ==> h[p].children[i] != h[p].children[j]
  }

  ghost predicate Levelled(h: Heap, root: Ptr, lev: Levels, n: nat) {
    && (forall p {:trigger p in lev} {:trigger lev[p]} :: p in h ==> p in lev && lev[p] <= n)
    && (forall p {:trigger lev[p]} :: p in h && p != root ==> lev[p] > 0)
  }

  /** The pointers form one tree under `root`, at most `n` levels deep. */
  ghost predicate IsTree(h: Heap, root: Ptr, lev: Levels, n: nat) {
    && root in h && h[root].parent.None?
    && Levelled(h, root, lev, n) && LinkedDown(h, lev) && LinkedUp(h, root) && NoTwins(h)
  }

  /** `q` is `p` or a descendant of `p`: following parents from `q` meets `p`. */
  ghost predicate Under(h: Heap, lev: Levels, p: Ptr, q: Ptr)
    decreases if q in lev then lev[q] else 0
  {
    q in h && q in lev &&
    (q == p ||
     (h[q].parent.Some? && h[q].parent.value in lev && lev[h[q].parent.value] < lev[q] &&
         Under(h, lev, p, h[q].parent.value)))
  }

  lemma ParentLevel(h: Heap, root: Ptr, lev: Levels, n: nat, q: Ptr)
    requires IsTree(h, root, lev, n) && q in h && q != root
    ensures h[q].parent.Some? && h[q].parent.value in h && lev[h[q].parent.value] == lev[q] - 1
  {
    var p := h[q].parent.value;
    var i :| 0 <= i < |h[p].children| && h[p].children[i] == q;
  }

  lemma {:induction false} UnderRoot(h: Heap, root: Ptr, lev: Levels, n: nat, q: Ptr)
    requires IsTree(h, root, lev, n) && q in h
    ensures Under(h, lev, root, q)
    decreases lev[q]
  {
    if q != root {
      ParentLevel(h, root, lev, n, q);
      UnderRoot(h, root, lev, n, h[q].parent.value);
    }
  }

  lemma {:induction false} UnderLevel(h: Heap, lev: Levels, p: Ptr, q: Ptr)
    requires Under(h, lev, p, q)
    ensures p in lev && lev[p] <= lev[q] && (lev[p] == lev[q] ==> p == q)
    decreases lev[q]
  {
    if q != p { UnderLevel(h, lev, p, h[q].parent.value); }
  }

  /** Two nodes of the same level have no common descendant. */
  lemma {:induction false} UnderDisjoint(h: Heap, lev: Levels, a: Ptr, b: Ptr, q: Ptr)
    requires Under(h, lev, a, q) && Under(h, lev, b, q) && a in lev && b in lev && lev[a] == lev[b]
    ensures a == b
    decreases lev[q]
  {
    if q == a { UnderLevel(h, lev, b, q); }
    else if q == b { UnderLevel(h, lev, a, q); }
    else { UnderDisjoint(h, lev, a, b, h[q].parent.value); }
  }

  lemma {:induction false} UnderUp(h: Heap, lev: Levels, p: Ptr, c: Ptr, q: Ptr)
    requires LinkedDown(h, lev) && p in h && p in lev && c in h[p].children && Under(h, lev, c, q)
    ensures Under(h, lev, p, q)
    decreases lev[q]
  {
    var i :| 0 <= i < |h[p].children| && h[p].children[i] == c;
    if q != c { UnderUp(h, lev, p, c, h[q].parent.value); }
  }

  lemma {:induction false} UnderDown(h: Heap, root: Ptr, lev: Levels, n: nat, p: Ptr, q: Ptr) returns (i: nat)
    requires IsTree(h, root, lev, n) && p in h && Under(h, lev, p, q) && q != p
    ensures i < |h[p].children| && Under(h, lev, h[p].children[i], q)
    decreases lev[q]
  {
    var r := h[q].parent.value;
    if q == root { UnderLevel(h, lev, p, r); UnderRoot(h, root, lev, n, p); UnderLevel(h, lev, root, p); }
    if r == p {
      i :| 0 <= i < |h[p].children| && h[p].children[i] == q;
    } else {
      i := UnderDown(h, root, lev, n, p, r);
    }
  }

  // -- Post-order -------------------------------------------------------------------------

  /** The nodes below and including `p`, children before parents, first child first, down to
      `f` levels. */
  function PostOrder(h: Heap, p: Ptr, f: nat): seq<Ptr>
    decreases f, 0
  {
    if f == 0 || p !in h then [] else Kids(h, h[p].children, |h[p].children|, f - 1) + [p]
  }

  function Kids(h: Heap, cs: seq<Ptr>, k: nat, f: nat): seq<Ptr>
    requires k <= |cs|
    decreases f, k + 1
  {
    if k == 0 then [] else Kids(h, cs, k - 1, f) + PostOrder(h, cs[k - 1], f)
  }

  lemma {:induction false} KidsMember(h: Heap, cs: seq<Ptr>, k: nat, f: nat, q: Ptr)
    requires k <= |cs|
    ensures q in Kids(h, cs, k, f) <==> exists i :: 0 <= i < k && q in PostOrder(h, cs[i], f)
    decreases k
  {
    if k > 0 { KidsMember(h, cs, k - 1, f, q); }
  }

  /** The post-order lists exactly the subtree. */
  lemma {:induction false} PostOrderIsSubtree(h: Heap, root: Ptr, lev: Levels, n: nat, p: Ptr, f: nat, q: Ptr)
    requires IsTree(h, root, lev, n) && p in h && f == n + 1 - lev[p]
    ensures q in PostOrder(h, p, f) <==> Under(h, lev, p, q)
    decreases f
  {
    var cs := h[p].children;
    KidsMember(h, cs, |cs|, f - 1, q);
    forall i | 0 <= i < |cs| ensures q in PostOrder(h, cs[i], f - 1) <==> Under(h, lev, cs[i], q) {
      PostOrderIsSubtree(h, root, lev, n, cs[i], f - 1, q);
    }
    if q in Kids(h, cs, |cs|, f - 1) {
      var i :| 0 <= i < |cs| && q in PostOrder(h, cs[i], f - 1);
      UnderUp(h, lev, p, cs[i], q);
    }
    if Under(h, lev, p, q) && q != p {
      var i := UnderDown(h, root, lev, n, p, q);
    }
  }

  ghost predicate Distinct(s: seq<Ptr>) {
    forall i, j :: 0 <= i < j < |s| ==> s[i] != s[j]
  }

  lemma DistinctConcat(s: seq<Ptr>, t: seq<Ptr>)
    requires Distinct(s) && Distinct(t) && forall q :: q in s ==> q !in t
    ensures Distinct(s + t)
  {
    var u := s + t;
    forall i, j | 0 <= i < j < |u| ensures u[i] != u[j] {
      if i < |s| <= j { assert u[i] in s && u[j] == t[j - |s|] && u[j] in t; }
    }
  }

  /** What the first `k` children contribute is disjoint from what the next one contributes. */
  lemma KidsApart(h: Heap, root: Ptr, lev: Levels, n: nat, p: Ptr, k: nat, f: nat, q: Ptr)
    requires IsTree(h, root, lev, n) && p in h && k < |h[p].children| && f == n - lev[p]
    requires q in Kids(h, h[p].children, k, f)
    ensures q !in PostOrder(h, h[p].children[k], f) && Under(h, lev, p, q) && q != p
  {
    var cs := h[p].children;
    KidsMember(h, cs, k, f, q);
    var i :| 0 <= i < k && q in PostOrder(h, cs[i], f);
    PostOrderIsSubtree(h, root, lev, n, cs[i], f, q);
    PostOrderIsSubtree(h, root, lev, n, cs[k], f, q);
    if q in PostOrder(h, cs[k], f) { UnderDisjoint(h, lev, cs[i], cs[k], q); }
    UnderUp(h, lev, p, cs[i], q);
    UnderLevel(h, lev, cs[i], q);
  }

  lemma KidsBelow(h: Heap, root: Ptr, lev: Levels, n: nat, p: Ptr, k: nat, f: nat, q: Ptr)
    requires IsTree(h, root, lev, n) && p in h && k <= |h[p].children| && f == n - lev[p]
    requires q in Kids(h, h[p].children, k, f)
    ensures Under(h, lev, p, q) && q != p && q != root
  {
    var cs := h[p].children;
    KidsMember(h, cs, k, f, q);
    var i :| 0 <= i < k && q in PostOrder(h, cs[i], f);
    PostOrderIsSubtree(h, root, lev, n, cs[i], f, q);
    UnderUp(h, lev, p, cs[i], q);
    UnderLevel(h, lev, cs[i], q);
    UnderRoot(h, root, lev, n, p);
    UnderLevel(h, lev, root, p);
  }

  lemma {:induction false} PostOrderDistinct(h: Heap, root: Ptr, lev: Levels, n: nat, p: Ptr, f: nat)
    requires IsTree(h, root, lev, n) && p in h && f == n + 1 - lev[p]
    ensures Distinct(PostOrder(h, p, f))
    decreases f, 0
  {
    var cs := h[p].children;
    KidsDistinct(h, root, lev, n, p, |cs|, f - 1);
    var below := Kids(h, cs, |cs|, f - 1);
    forall q | q in below ensures q !in [p] {
      KidsBelow(h, root, lev, n, p, |cs|, f - 1, q);
    }
    DistinctConcat(below, [p]);
  }

  lemma {:induction false} KidsDistinct(h: Heap, root: Ptr, lev: Levels, n: nat, p: Ptr, k: nat, f: nat)
    requires IsTree(h, root, lev, n) && p in h && f == n - lev[p] && k <= |h[p].children|
    ensures Distinct(Kids(h, h[p].children, k, f))
    decreases f, k + 1
  {
    if k > 0 {
      var cs := h[p].children;
      KidsDistinct(h, root, lev, n, p, k - 1, f);
      PostOrderDistinct(h, root, lev, n, cs[k - 1], f);
      var before, last := Kids(h, cs, k - 1, f), PostOrder(h, cs[k - 1], f);
      forall q | q in before ensures q !in last {
        KidsApart(h, root, lev, n, p, k - 1, f, q);
      }
      DistinctConcat(before, last);
    }
  }

  // -- Removing nodes ---------------------------------------------------------------------

  /** `std::remove` of a set of pointers from a list of children. */
  function Keep(cs: seq<Ptr>, gone: set<Ptr>): (r: seq<Ptr>)
    ensures forall c :: c in r <==> c in cs && c !in gone
    ensures (forall c :: c in cs ==> c !in gone) ==> r == cs
  {
    if cs == [] then []
    else
      var front, last := cs[..|cs| - 1], cs[|cs| - 1];
      assert cs == front + [last];
      if last in gone then Keep(front, gone) else Keep(front, gone) + [last]
  }

  lemma {:induction false} KeepTwice(cs: seq<Ptr>, a: set<Ptr>, b: set<Ptr>)
    ensures Keep(Keep(cs, a), b) == Keep(cs, a + b)
  {
    if cs != [] {
      var front, last := cs[..|cs| - 1], cs[|cs| - 1];
      KeepTwice(front, a, b);
      if last !in a { assert (Keep(front, a) + [last])[..|Keep(front, a)|] == Keep(front, a); }
    }
  }

  lemma {:induction false} KeepDistinct(cs: seq<Ptr>, gone: set<Ptr>)
    requires Distinct(cs)
    ensures Distinct(Keep(cs, gone))
  {
    if cs != [] {
      var front, last := cs[..|cs| - 1], cs[|cs| - 1];
      KeepDistinct(front, gone);
      if last !in gone {
        forall q | q in Keep(front, gone) ensures q != last {
          var i :| 0 <= i < |front| && front[i] == q;
          assert cs[i] == q;
        }
        DistinctConcat(Keep(front, gone), [last]);
      }
    }
  }

  /** Dropping the first `k` of distinct children. */
  lemma {:induction false} KeepSuffix(cs: seq<Ptr>, k: nat, gone: set<Ptr>)
    requires k <= |cs|
    requires forall i :: 0 <= i < |cs| ==> (cs[i] in gone <==> i < k)
    ensures Keep(cs, gone) == cs[k..]
    decreases |cs|
  {
    if cs != [] {
      var m := |cs| - 1;
      if k <= m {
        KeepSuffix(cs[..m], k, gone);
        assert cs[k..] == cs[..m][k..] + [cs[m]];
      } else {
        KeepSuffix(cs[..m], m, gone);
      }
    }
  }

  /** The heap without some nodes and without the links to them. */
  function Removed(h: Heap, gone: set<Ptr>): Heap {
    map q | q in h && q !in gone :: h[q].(children := Keep(h[q].children, gone))
  }

  lemma RemovedTwice(h: Heap, a: set<Ptr>, b: set<Ptr>)
    ensures Removed(Removed(h, a), b) == Removed(h, a + b)
  {
    var once, twice, both := Removed(h, a), Removed(Removed(h, a), b), Removed(h, a + b);
    assert twice.Keys == both.Keys;
    forall q | q in twice ensures twice[q] == both[q] {
      KeepTwice(h[q].children, a, b);
      assert once[q] == h[q].(children := Keep(h[q].children, a));
    }
  }

  lemma RemovedNothing(h: Heap)
    ensures Removed(h, {}) == h
  {
    assert Removed(h, {}).Keys == h.Keys;
  }

  /** Removing a set of nodes that contains the children of its members leaves a tree. */
  lemma RemovedTree(h: Heap, root: Ptr, lev: Levels, n: nat, gone: set<Ptr>)
    requires IsTree(h, root, lev, n) && root !in gone
    requires forall q :: q in h && q != root && h[q].parent.value in gone ==> q in gone
    ensures IsTree(Removed(h, gone), root, lev, n)
  {
    var r := Removed(h, gone);
    forall p | p in r ensures Distinct(r[p].children) {
      assert Distinct(h[p].children);
      KeepDistinct(h[p].children, gone);
    }
    forall p, i | p in r && 0 <= i < |r[p].children|
      ensures var c := r[p].children[i]; c in r && r[c].parent == Some(p) && lev[c] == lev[p] + 1
    {
      var c := r[p].children[i];
      assert c in Keep(h[p].children, gone);
      var j :| 0 <= j < |h[p].children| && h[p].children[j] == c;
    }
    forall p | p in r && p != root
      ensures r[p].parent.value in r && p in r[r[p].parent.value].children
    {
      assert p in h[h[p].parent.value].children;
    }
  }

  /** A subtree that loses nothing keeps its post-order. */
  lemma {:induction false} PostOrderFrame(h: Heap, lev: Levels, p: Ptr, f: nat, gone: set<Ptr>)
    requires LinkedDown(h, lev) && p in h
    requires forall q :: q in PostOrder(h, p, f) ==> q !in gone
    ensures PostOrder(Removed(h, gone), p, f) == PostOrder(h, p, f)
    decreases f, 0
  {
    if f > 0 {
      var r, cs := Removed(h, gone), h[p].children;
      assert forall q :: q in Kids(h, cs, |cs|, f - 1) ==> q in PostOrder(h, p, f);
      assert p in PostOrder(h, p, f);
      if f - 1 == 0 {
        NoKids(h, cs, |cs|);
        NoKids(r, r[p].children, |r[p].children|);
      } else {
        ChildrenStay(h, lev, p, f - 1, gone);
        KidsFrame(h, lev, p, |cs|, f - 1, gone);
      }
    }
  }

  lemma ChildrenStay(h: Heap, lev: Levels, p: Ptr, f: nat, gone: set<Ptr>)
    requires LinkedDown(h, lev) && p in h && f > 0 && p !in gone
    requires forall q :: q in Kids(h, h[p].children, |h[p].children|, f) ==> q !in gone
    ensures Removed(h, gone)[p].children == h[p].children
  {
    var cs := h[p].children;
    forall c | c in cs ensures c !in gone {
      var i :| 0 <= i < |cs| && cs[i] == c;
      KidsMember(h, cs, |cs|, f, c);
      assert c in PostOrder(h, cs[i], f);
    }
  }

  lemma {:induction false} NoKids(h: Heap, cs: seq<Ptr>, k: nat)
    requires k <= |cs|
    ensures Kids(h, cs, k, 0) == []
    decreases k
  {
    if k > 0 { NoKids(h, cs, k - 1); }
  }

  lemma {:induction false} KidsFrame(h: Heap, lev: Levels, p: Ptr, k: nat, f: nat, gone: set<Ptr>)
    requires LinkedDown(h, lev) && p in h && k <= |h[p].children|
    requires forall q :: q in Kids(h, h[p].children, k, f) ==> q !in gone
    ensures Kids(Removed(h, gone), h[p].children, k, f) == Kids(h, h[p].children, k, f)
    decreases f, k + 1
  {
    if k > 0 {
      KidsFrame(h, lev, p, k - 1, f, gone);
      PostOrderFrame(h, lev, h[p].children[k - 1], f, gone);
    }
  }
}
