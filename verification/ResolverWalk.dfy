/** The resumable walk of the attribute resolver over the attribute tree: an explicit stack of
    nodes and child indexes, against the recursion that it replaces. */
module ResolverWalk {
  import opened Common
  import opened NodeHeap

  /** A node and the index of the next child to descend to. */
  datatype Entry = Entry(node: Ptr, index: nat)

  /** The top of the stack is its last element. */
  type Stack = seq<Entry>

  /** The links of the tree and the paused nodes. */
  datatype World = World(h: Heap, root: Ptr, lev: Levels, n: nat, paused: set<Ptr>)

  ghost predicate Good(w: World) {
    IsTree(w.h, w.root, w.lev, w.n)
  }

  /** `is_node_or_parent_paused` */
  ghost predicate PausedAbove(w: World, p: Ptr) {
    exists q :: q in w.paused && Under(w.h, w.lev, q, p)
  }

  /** The walk drops such an entry, with everything below it. */
  ghost predicate Skipped(w: World, p: Ptr) {
    p !in w.h || PausedAbove(w, p)
  }

  // -- The recursion ----------------------------------------------------------------------

  /** The post-order below and including `p`, pruned at paused nodes, down to `f` levels. */
  function Pruned(h: Heap, paused: set<Ptr>, p: Ptr, f: nat): seq<Ptr>
    decreases f, 0
  {
    if f == 0 || p !in h || p in paused then [] else PrunedKids(h, paused, h[p].children, 0, f - 1) + [p]
  }

  function PrunedKids(h: Heap, paused: set<Ptr>, cs: seq<Ptr>, i: nat, f: nat): seq<Ptr>
    decreases f, if i < |cs| then |cs| - i + 1 else 1
  {
    if i >= |cs| then [] else Pruned(h, paused, cs[i], f) + PrunedKids(h, paused, cs, i + 1, f)
  }

  lemma {:induction false} PrunedKidsMember(h: Heap, paused: set<Ptr>, cs: seq<Ptr>, i: nat, f: nat, q: Ptr)
    ensures q in PrunedKids(h, paused, cs, i, f) <==> exists j :: i <= j < |cs| && q in Pruned(h, paused, cs[j], f)
    decreases if i < |cs| then |cs| - i else 0
  {
    if i < |cs| { PrunedKidsMember(h, paused, cs, i + 1, f, q); }
  }

  ghost predicate PausedBetween(w: World, p: Ptr, q: Ptr) {
    exists r :: r in w.paused && Under(w.h, w.lev, p, r) && Under(w.h, w.lev, r, q)
  }

  /** The pruned post-order of `p` holds exactly the nodes below `p` that are not cut off by a
      paused node. */
  lemma {:induction false} PrunedMembers(w: World, p: Ptr, f: nat, q: Ptr)
    requires Good(w) && p in w.h && f == w.n + 1 - w.lev[p]
    ensures q in Pruned(w.h, w.paused, p, f) <==> Under(w.h, w.lev, p, q) && !PausedBetween(w, p, q)
    decreases f
  {
    hide LinkedUp, NoTwins;
    if p in w.paused {
      if Under(w.h, w.lev, p, q) { assert Under(w.h, w.lev, p, p); }
    } else {
      var cs := w.h[p].children;
      PrunedKidsMember(w.h, w.paused, cs, 0, f - 1, q);
      forall j | 0 <= j < |cs|
        ensures q in Pruned(w.h, w.paused, cs[j], f - 1) <==> Under(w.h, w.lev, cs[j], q) && !PausedBetween(w, cs[j], q)
      {
        PrunedMembers(w, cs[j], f - 1, q);
      }
      if Under(w.h, w.lev, p, q) && q != p {
        var j := UnderDown(w.h, w.root, w.lev, w.n, p, q);
        BetweenDown(w, p, j, q);
        if exists k :: 0 <= k < |cs| && k != j && q in Pruned(w.h, w.paused, cs[k], f - 1) {
          var k :| 0 <= k < |cs| && k != j && q in Pruned(w.h, w.paused, cs[k], f - 1);
          UnderDisjoint(w.h, w.lev, cs[j], cs[k], q);
        }
      } else if q == p {
        PausedBetweenSelf(w, p);
      } else {
        forall j | 0 <= j < |cs| ensures !Under(w.h, w.lev, cs[j], q) {
          if Under(w.h, w.lev, cs[j], q) { UnderUp(w.h, w.lev, p, cs[j], q); }
        }
      }
    }
  }

  lemma PausedBetweenSelf(w: World, p: Ptr)
    requires Good(w) && p !in w.paused
    ensures !PausedBetween(w, p, p)
  {
    if PausedBetween(w, p, p) {
      var r :| r in w.paused && Under(w.h, w.lev, p, r) && Under(w.h, w.lev, r, p);
      UnderLevel(w.h, w.lev, p, r);
      UnderLevel(w.h, w.lev, r, p);
    }
  }

  /** Below the child that leads to `q`, the same paused nodes cut `q` off. */
  lemma BetweenDown(w: World, p: Ptr, j: nat, q: Ptr)
    requires Good(w) && p in w.h && p !in w.paused && j < |w.h[p].children|
    requires Under(w.h, w.lev, w.h[p].children[j], q)
    ensures PausedBetween(w, p, q) <==> PausedBetween(w, w.h[p].children[j], q)
  {
    var c := w.h[p].children[j];
    if PausedBetween(w, c, q) {
      var r :| r in w.paused && Under(w.h, w.lev, c, r) && Under(w.h, w.lev, r, q);
      UnderUp(w.h, w.lev, p, c, r);
    }
    if PausedBetween(w, p, q) {
      var r :| r in w.paused && Under(w.h, w.lev, p, r) && Under(w.h, w.lev, r, q);
      var i := UnderDown(w.h, w.root, w.lev, w.n, p, r);
      var d := w.h[p].children[i];
      UnderTrans(w.h, w.lev, d, r, q);
      UnderDisjoint(w.h, w.lev, c, d, q);
    }
  }

  lemma {:induction false} UnderTrans(h: Heap, lev: Levels, a: Ptr, b: Ptr, c: Ptr)
    requires Under(h, lev, a, b) && Under(h, lev, b, c)
    ensures Under(h, lev, a, c)
    decreases lev[c]
  {
    if c != b { UnderTrans(h, lev, a, b, h[c].parent.value); }
  }

  // -- What a stack still has to consider -------------------------------------------------

  /** An index beyond the children is taken as 0. */
  function At(index: nat, count: nat): nat {
    if index > count then 0 else index
  }

  ghost function Rest(w: World, e: Entry): seq<Ptr>
    requires Good(w)
  {
    if Skipped(w, e.node) then []
    else
      var cs := w.h[e.node].children;
      PrunedKids(w.h, w.paused, cs, At(e.index, |cs|), w.n - w.lev[e.node]) + [e.node]
  }

  ghost function Remaining(w: World, s: Stack): seq<Ptr>
    requires Good(w)
  {
    if s == [] then [] else Rest(w, s[|s| - 1]) + Remaining(w, s[..|s| - 1])
  }

  /** A pushed child has its whole pruned subtree ahead. */
  lemma RestOfChild(w: World, p: Ptr, i: nat)
    requires Good(w) && !Skipped(w, p) && i < |w.h[p].children|
    ensures var c := w.h[p].children[i];
            c in w.h && w.lev[p] < w.n && Rest(w, Entry(c, 0)) == Pruned(w.h, w.paused, c, w.n - w.lev[p])
  {
    hide LinkedUp, NoTwins;
    var c := w.h[p].children[i];
    PausedChild(w, p, c);
  }

  lemma PausedChild(w: World, p: Ptr, c: Ptr)
    requires Good(w) && !Skipped(w, p) && c in w.h && w.h[c].parent == Some(p) && w.lev[c] == w.lev[p] + 1
    ensures PausedAbove(w, c) <==> c in w.paused
  {
    if c in w.paused { assert Under(w.h, w.lev, c, c); }
  }

  /** Descending splits what the entry has ahead into the child and the rest. */
  lemma Descend(w: World, s: Stack, e: Entry)
    requires Good(w) && !Skipped(w, e.node) && e.index < |w.h[e.node].children|
    ensures Remaining(w, s + [e]) ==
            Remaining(w, s + [Entry(e.node, e.index + 1), Entry(w.h[e.node].children[e.index], 0)])
  {
    hide PausedAbove, Good;
    var cs := w.h[e.node].children;
    var more, child := Entry(e.node, e.index + 1), Entry(cs[e.index], 0);
    assert (s + [e])[..|s|] == s;
    assert (s + [more, child])[..|s| + 1] == s + [more];
    assert (s + [more])[..|s|] == s;
    RestOfChild(w, e.node, e.index);
    assert Rest(w, e) == Rest(w, child) + Rest(w, more);
  }

  /** With all children visited only the node itself is ahead. */
  lemma Consider(w: World, s: Stack, e: Entry)
    requires Good(w) && !Skipped(w, e.node) && e.index == |w.h[e.node].children|
    ensures Remaining(w, s + [e]) == [e.node] + Remaining(w, s)
  {
    hide Skipped, Good;
    assert (s + [e])[..|s|] == s;
  }

  lemma Drop(w: World, s: Stack, e: Entry)
    requires Good(w) && Skipped(w, e.node)
    ensures Remaining(w, s + [e]) == Remaining(w, s)
  {
    assert (s + [e])[..|s|] == s;
  }

  /** An index beyond the children restarts the node. */
  lemma Restarted(w: World, s: Stack, e: Entry)
    requires Good(w) && e.node in w.h && e.index > |w.h[e.node].children|
    ensures Remaining(w, s + [e]) == Remaining(w, s + [Entry(e.node, 0)])
  {
    assert (s + [e])[..|s|] == s;
    assert (s + [Entry(e.node, 0)])[..|s|] == s;
  }

  // -- The whole scan ---------------------------------------------------------------------

  /** How many passes of the loop an entry costs. */
  ghost function Cost(w: World, e: Entry): nat
    requires Good(w)
  {
    if Skipped(w, e.node) then 1
    else
      var cs := w.h[e.node].children;
      KidsCost(w.h, w.paused, cs, At(e.index, |cs|), w.n - w.lev[e.node]) + 1
  }

  function NodeCost(h: Heap, paused: set<Ptr>, p: Ptr, f: nat): nat
    decreases f, 0
  {
    if f == 0 || p !in h || p in paused then 1 else KidsCost(h, paused, h[p].children, 0, f - 1) + 1
  }

  function KidsCost(h: Heap, paused: set<Ptr>, cs: seq<Ptr>, i: nat, f: nat): nat
    decreases f, if i < |cs| then |cs| - i + 1 else 1
  {
    if i >= |cs| then 0 else 1 + NodeCost(h, paused, cs[i], f) + KidsCost(h, paused, cs, i + 1, f)
  }

  ghost function Work(w: World, s: Stack): nat
    requires Good(w)
  {
    if s == [] then 0 else Cost(w, s[|s| - 1]) + Work(w, s[..|s| - 1])
  }

  lemma CostOfChild(w: World, p: Ptr, i: nat)
    requires Good(w) && !Skipped(w, p) && i < |w.h[p].children|
    ensures w.lev[p] < w.n && Cost(w, Entry(w.h[p].children[i], 0)) ==
            NodeCost(w.h, w.paused, w.h[p].children[i], w.n - w.lev[p])
  {
    hide LinkedUp, NoTwins;
    PausedChild(w, p, w.h[p].children[i]);
  }

  lemma DescendWork(w: World, s: Stack, e: Entry)
    requires Good(w) && !Skipped(w, e.node) && e.index < |w.h[e.node].children|
    ensures Work(w, s + [Entry(e.node, e.index + 1), Entry(w.h[e.node].children[e.index], 0)]) < Work(w, s + [e])
  {
    hide PausedAbove, Good;
    var more, child := Entry(e.node, e.index + 1), Entry(w.h[e.node].children[e.index], 0);
    assert (s + [e])[..|s|] == s;
    assert (s + [more, child])[..|s| + 1] == s + [more];
    assert (s + [more])[..|s|] == s;
    CostOfChild(w, e.node, e.index);
  }

  /** Unless it is paused itself, a node is paused above if and only if its parent is. */
  lemma PausedStep(w: World, q: Ptr)
    requires Good(w) && q in w.h && q !in w.paused
    ensures PausedAbove(w, q) <==> w.h[q].parent.Some? && PausedAbove(w, w.h[q].parent.value)
  {
    hide LinkedDown, NoTwins;
    if q != w.root { ParentLevel(w.h, w.root, w.lev, w.n, q); }
  }

  /** `is_node_or_parent_paused` walks up from the node. */
  method IsPausedAbove(h: Heap, paused: set<Ptr>, p: Ptr, ghost w: World) returns (r: bool)
    requires Good(w) && w.h == h && w.paused == paused
    ensures r <==> PausedAbove(w, p)
  {
    hide LinkedDown, LinkedUp, NoTwins, PausedAbove, Under;
    var up := Some(p);
    if p !in h { NotInHeap(w, p); }
    while up.Some? && up.value in h
      invariant PausedAbove(w, p) <==> up.Some? && PausedAbove(w, up.value)
      invariant up.Some? ==> up.value in h || up.value == p
      decreases if up.Some? && up.value in h then w.lev[up.value] + 1 else 0
    {
      var q := up.value;
      if q in paused {
        SelfPaused(w, q);
        return true;
      }
      PausedStep(w, q);
      ParentBelow(w, q);
      up := h[q].parent;
    }
    r := false;
  }

  lemma NotInHeap(w: World, p: Ptr)
    requires p !in w.h
    ensures !PausedAbove(w, p)
  {
  }

  lemma SelfPaused(w: World, q: Ptr)
    requires Good(w) && q in w.h && q in w.paused
    ensures PausedAbove(w, q)
  {
    assert Under(w.h, w.lev, q, q);
  }

  lemma ParentBelow(w: World, q: Ptr)
    requires Good(w) && q in w.h
    ensures w.h[q].parent.Some? ==> w.h[q].parent.value in w.h && w.lev[w.h[q].parent.value] < w.lev[q]
  {
    if q != w.root { ParentLevel(w.h, w.root, w.lev, w.n, q); }
  }

  /** What one pass does to the stack, and the node it considers. */
  ghost function WalkStep(w: World, s: Stack): (r: (Stack, Option<Ptr>))
    requires s != []
  {
    var e, below := s[|s| - 1], s[..|s| - 1];
    if Skipped(w, e.node) then (below, None)
    else
      var cs := w.h[e.node].children;
      var i := At(e.index, |cs|);
      if i == |cs| then (below, Some(e.node))
      else (below + [Entry(e.node, i + 1), Entry(cs[i], 0)], None)
  }

  /** What a stack leads to is what the next pass considers, and then what the next stack leads to. */
  lemma WalkStepSplits(w: World, s: Stack)
    requires Good(w) && s != []
    ensures var (next, hit) := WalkStep(w, s);
            Remaining(w, s) == (if hit.Some? then [hit.value] else []) + Remaining(w, next)
  {
    hide Good, PausedAbove, Rest;
    var e, below := s[|s| - 1], s[..|s| - 1];
    assert s == below + [e];
    if Skipped(w, e.node) {
      Drop(w, below, e);
    } else {
      var cs := w.h[e.node].children;
      var f := Entry(e.node, At(e.index, |cs|));
      if e.index > |cs| { Restarted(w, below, e); }
      if f.index == |cs| { Consider(w, below, f); } else { Descend(w, below, f); }
    }
  }

  /** One pass of the loop of `resolver_find_next_resolve`, up to the point where a node whose
      children are all visited has left the stack and is considered for resolution. */
  method Pass(h: Heap, paused: set<Ptr>, stack: Stack, ghost w: World) returns (next: Stack, hit: Option<Ptr>)
    requires Good(w) && w.h == h && w.paused == paused && stack != []
    ensures (next, hit) == WalkStep(w, stack)
    ensures Remaining(w, stack) == (if hit.Some? then [hit.value] else []) + Remaining(w, next)
    ensures Work(w, next) < Work(w, stack)
    ensures hit.Some? ==> hit.value == stack[|stack| - 1].node && hit.value in h
    ensures next == stack[..|stack| - 1] || (hit.None? && |next| == |stack| + 1 &&
            Nodes(next)[..|stack|] == Nodes(stack))
  {
    hide Good, PausedAbove, Rest, Cost, Remaining;
    WalkStepSplits(w, stack);
    var e, below := stack[|stack| - 1], stack[..|stack| - 1];
    assert stack == below + [e];
    var isPaused := IsPausedAbove(h, paused, e.node, w);
    if isPaused || e.node !in h {
      DropWork(w, below, e);
      return below, None;
    }
    var cs := h[e.node].children;
    var f := Entry(e.node, At(e.index, |cs|));
    RestartedWork(w, below, e);
    if f.index == |cs| {
      DropWork(w, below, f);
      next, hit := below, Some(e.node);
    } else {
      DescendWork(w, below, f);
      next, hit := below + [Entry(e.node, f.index + 1), Entry(cs[f.index], 0)], None;
    }
  }

  ghost function Nodes(s: Stack): (r: seq<Ptr>)
    ensures |r| == |s| && forall i :: 0 <= i < |s| ==> r[i] == s[i].node
  {
    if s == [] then [] else Nodes(s[..|s| - 1]) + [s[|s| - 1].node]
  }

  lemma DropWork(w: World, s: Stack, e: Entry)
    requires Good(w)
    ensures Work(w, s) < Work(w, s + [e])
  {
    assert (s + [e])[..|s|] == s;
  }

  /** The loop of `resolver_find_next_resolve` over a whole scan, with no change of the tree or of
      the paused nodes: it ends, and it considers exactly the pruned post-order, each node once. */
  method Scan(h: Heap, root: Ptr, paused: set<Ptr>, ghost lev: Levels, ghost n: nat) returns (considered: seq<Ptr>)
    requires IsTree(h, root, lev, n)
    ensures considered == Pruned(h, paused, root, n + 1 - lev[root])
    ensures Distinct(considered)
    ensures forall q :: q in considered <==> !Skipped(World(h, root, lev, n, paused), q)
  {
    hide IsTree, Work, Rest, Pruned, Skipped;
    ghost var w := World(h, root, lev, n, paused);
    var stack: Stack := [Entry(root, 0)];
    considered := [];
    RootAhead(w);
    PrunedDistinct(w, root, n + 1 - lev[root]);
    forall q ensures q in Pruned(h, paused, root, n + 1 - lev[root]) <==> !Skipped(w, q) { ScanMembers(w, q); }
    while stack != []
      invariant considered + Remaining(w, stack) == Pruned(h, paused, root, n + 1 - lev[root])
      decreases Work(w, stack)
    {
      var hit;
      stack, hit := Pass(h, paused, stack, w);
      if hit.Some? { considered := considered + [hit.value]; }
    }
  }

  lemma RestartedWork(w: World, s: Stack, e: Entry)
    requires Good(w) && e.node in w.h
    ensures Work(w, s + [Entry(e.node, At(e.index, |w.h[e.node].children|))]) == Work(w, s + [e])
  {
    var f := Entry(e.node, At(e.index, |w.h[e.node].children|));
    assert (s + [e])[..|s|] == s;
    assert (s + [f])[..|s|] == s;
  }

  lemma RootAhead(w: World)
    requires Good(w)
    ensures w.root in w.h && w.root in w.lev && w.lev[w.root] <= w.n
    ensures Remaining(w, [Entry(w.root, 0)]) == Pruned(w.h, w.paused, w.root, w.n + 1 - w.lev[w.root])
  {
    hide LinkedDown, NoTwins;
    var e := Entry(w.root, 0);
    assert [e][..0] == [] && [e][0] == e;
    assert Remaining(w, [e]) == Rest(w, e) + Remaining(w, []);
    if w.root in w.paused { SelfPaused(w, w.root); } else { PausedStep(w, w.root); }
  }

  /** A scan considers a node if and only if neither it nor an ancestor is paused. */
  lemma ScanMembers(w: World, q: Ptr)
    requires Good(w)
    ensures q in Pruned(w.h, w.paused, w.root, w.n + 1 - w.lev[w.root]) <==> !Skipped(w, q)
  {
    hide LinkedDown, LinkedUp, NoTwins;
    PrunedMembers(w, w.root, w.n + 1 - w.lev[w.root], q);
    if q in w.h {
      UnderRoot(w.h, w.root, w.lev, w.n, q);
      if PausedAbove(w, q) {
        var r :| r in w.paused && Under(w.h, w.lev, r, q);
        AncestorInHeap(w, r, q);
        UnderRoot(w.h, w.root, w.lev, w.n, r);
        assert PausedBetween(w, w.root, q);
      }
    }
  }

  lemma {:induction false} AncestorInHeap(w: World, a: Ptr, q: Ptr)
    requires Good(w) && Under(w.h, w.lev, a, q)
    ensures a in w.h
    decreases w.lev[q]
  {
    if q != a { AncestorInHeap(w, a, w.h[q].parent.value); }
  }

  lemma {:induction false} PrunedDistinct(w: World, p: Ptr, f: nat)
    requires Good(w) && p in w.h && f == w.n + 1 - w.lev[p]
    ensures Distinct(Pruned(w.h, w.paused, p, f))
    decreases f, 1, 0
  {
    if p !in w.paused {
      hide LinkedUp, NoTwins;
      PrunedKidsDistinct(w, p, 0);
      var below := PrunedKids(w.h, w.paused, w.h[p].children, 0, f - 1);
      forall q | q in below ensures q !in [p] {
        PrunedKidsMember(w.h, w.paused, w.h[p].children, 0, f - 1, q);
        var j :| 0 <= j < |w.h[p].children| && q in Pruned(w.h, w.paused, w.h[p].children[j], f - 1);
        PrunedMembers(w, w.h[p].children[j], f - 1, q);
        UnderLevel(w.h, w.lev, w.h[p].children[j], q);
      }
      DistinctConcat(below, [p]);
    }
  }

  lemma {:induction false} PrunedKidsDistinct(w: World, p: Ptr, i: nat)
    requires Good(w) && p in w.h && i <= |w.h[p].children|
    ensures Distinct(PrunedKids(w.h, w.paused, w.h[p].children, i, w.n - w.lev[p]))
    decreases w.n + 1 - w.lev[p], 0, |w.h[p].children| - i
  {
    var cs, f := w.h[p].children, w.n - w.lev[p];
    if i < |cs| {
      hide LinkedUp;
      PrunedDistinct(w, cs[i], f);
      PrunedKidsDistinct(w, p, i + 1);
      var first, others := Pruned(w.h, w.paused, cs[i], f), PrunedKids(w.h, w.paused, cs, i + 1, f);
      forall q | q in first ensures q !in others {
        PrunedKidsMember(w.h, w.paused, cs, i + 1, f, q);
        PrunedMembers(w, cs[i], f, q);
        forall j | i + 1 <= j < |cs| ensures q !in Pruned(w.h, w.paused, cs[j], f) {
          PrunedMembers(w, cs[j], f, q);
          if q in Pruned(w.h, w.paused, cs[j], f) { UnderDisjoint(w.h, w.lev, cs[i], cs[j], q); }
        }
      }
      DistinctConcat(first, others);
    }
  }
}
