/** What a scan request during a walk is worth: which nodes a stack still leads to, and what keeps
    a requested node ahead of the walk. */
module ScanRequests {
  import opened Common
  import opened NodeHeap
  import opened ResolverWalk
  import opened StoreRows

  /** The position of the entry does not lead past `q`. */
  ghost predicate Ahead(w: World, e: Entry, q: Ptr) {
    e.node in w.h &&
    (q == e.node ||
     exists j :: At(e.index, |w.h[e.node].children|) <= j < |w.h[e.node].children| &&
         Under(w.h, w.lev, w.h[e.node].children[j], q))
  }

  ghost predicate AheadOf(w: World, s: Stack, q: Ptr) {
    exists k :: 0 <= k < |s| && Ahead(w, s[k], q)
  }

  lemma AheadUnder(w: World, e: Entry, q: Ptr)
    requires Good(w) && Ahead(w, e, q)
    ensures Under(w.h, w.lev, e.node, q)
  {
    if q != e.node {
      var j :| At(e.index, |w.h[e.node].children|) <= j < |w.h[e.node].children| &&
          Under(w.h, w.lev, w.h[e.node].children[j], q);
      UnderUp(w.h, w.lev, e.node, w.h[e.node].children[j], q);
    }
  }

  /** Below a node that is not cut off, only the paused nodes in between cut off. */
  lemma PausedBelow(w: World, p: Ptr, q: Ptr)
    requires Good(w) && p in w.h && Under(w.h, w.lev, p, q)
    ensures !PausedAbove(w, q) ==> !PausedAbove(w, p) && !PausedBetween(w, p, q)
    ensures !PausedAbove(w, p) && !PausedBetween(w, p, q) ==> !PausedAbove(w, q)
  {
    if PausedAbove(w, p) {
      var r :| r in w.paused && Under(w.h, w.lev, r, p);
      UnderTrans(w.h, w.lev, r, p, q);
    }
    if PausedAbove(w, q) {
      var r :| r in w.paused && Under(w.h, w.lev, r, q);
      UnderLinear(w, r, p, q);
    }
  }

  /** Two ancestors of a node lie on one line. */
  lemma {:induction false} UnderLinear(w: World, a: Ptr, b: Ptr, q: Ptr)
    requires Good(w) && Under(w.h, w.lev, a, q) && Under(w.h, w.lev, b, q)
    ensures Under(w.h, w.lev, a, b) || Under(w.h, w.lev, b, a)
    decreases w.lev[q]
  {
    if q != a && q != b { UnderLinear(w, a, b, w.h[q].parent.value); }
  }

  /** An entry still leads to exactly the nodes that its position does not lead past and that are
      not cut off by a pause. */
  lemma RestMembers(w: World, e: Entry, q: Ptr)
    requires Good(w)
    ensures q in Rest(w, e) <==> !Skipped(w, q) && Ahead(w, e, q)
  {
    hide LinkedUp, NoTwins, PausedAbove, PausedBetween, Under;
    if e.node in w.h {
      var cs := w.h[e.node].children;
      var a, f := At(e.index, |cs|), w.n - w.lev[e.node];
      if !Skipped(w, e.node) {
        PrunedKidsMember(w.h, w.paused, cs, a, f, q);
        forall j | a <= j < |cs| ensures q in Pruned(w.h, w.paused, cs[j], f) <==>
            Under(w.h, w.lev, cs[j], q) && !Skipped(w, q) {
          PrunedMembers(w, cs[j], f, q);
          ChildNotPaused(w, e.node, cs[j], q);
        }
      } else if Ahead(w, e, q) {
        AheadUnder(w, e, q);
        PausedBelow(w, e.node, q);
      }
    }
  }

  lemma ChildNotPaused(w: World, p: Ptr, c: Ptr, q: Ptr)
    requires Good(w) && !Skipped(w, p) && c in w.h && w.h[c].parent == Some(p) && w.lev[c] == w.lev[p] + 1
    ensures Under(w.h, w.lev, c, q) ==> (PausedBetween(w, c, q) <==> Skipped(w, q))
  {
    if Under(w.h, w.lev, c, q) {
      PausedBelow(w, c, q);
      if PausedAbove(w, c) {
        PausedChild(w, p, c);
        assert Under(w.h, w.lev, c, c);
      }
    }
  }

  /** A walk considers a node before its stack empties if and only if the node is not cut off and
      the stack is not past it. */
  lemma {:induction false} RemainingMembers(w: World, s: Stack, q: Ptr)
    requires Good(w)
    ensures q in Remaining(w, s) <==> !Skipped(w, q) && AheadOf(w, s, q)
    decreases |s|
  {
    if s != [] {
      hide Good, Skipped, Ahead, Rest;
      var m := |s| - 1;
      RemainingMembers(w, s[..m], q);
      RestMembers(w, s[m], q);
      AheadOfSplit(w, s, q);
    }
  }

  lemma AheadOfSplit(w: World, s: Stack, q: Ptr)
    requires s != []
    ensures AheadOf(w, s, q) <==> AheadOf(w, s[..|s| - 1], q) || Ahead(w, s[|s| - 1], q)
  {
    var m := |s| - 1;
    if AheadOf(w, s[..m], q) {
      var k :| 0 <= k < m && Ahead(w, s[..m][k], q);
      assert s[k] == s[..m][k];
    }
    if AheadOf(w, s, q) && !Ahead(w, s[m], q) {
      var k :| 0 <= k < |s| && Ahead(w, s[k], q);
      assert s[..m][k] == s[k];
    }
  }

  // -- scan_node --------------------------------------------------------------------------

  /** Entry `k` is the first entry of the nearest ancestor-or-self of `p` on the stack. */
  ghost predicate Nearest(w: World, s: Stack, p: Ptr, k: int) {
    && 0 <= k < |s| && Under(w.h, w.lev, s[k].node, p)
    && (forall j :: 0 <= j < |s| && Under(w.h, w.lev, s[j].node, p) ==> Under(w.h, w.lev, s[j].node, s[k].node))
    && (forall j :: 0 <= j < k ==> s[j].node != s[k].node)
  }

  /** The nearest ancestor-or-self of `p` on the stack, if there is one, starts over; nothing else
      changes. */
  ghost predicate NearestReset(w: World, s: Stack, p: Ptr, next: Stack) {
    || (exists k :: Nearest(w, s, p, k) && next == s[k := Entry(s[k].node, 0)])
    || (next == s && forall j :: 0 <= j < |s| ==> !Under(w.h, w.lev, s[j].node, p))
  }

  lemma UnderStep(w: World, q: Ptr)
    requires Good(w)
    ensures q !in w.h ==> forall a :: !Under(w.h, w.lev, a, q)
    ensures q in w.h ==> Under(w.h, w.lev, q, q)
    ensures q in w.h ==> forall a :: Under(w.h, w.lev, a, q) <==>
              a == q || (w.h[q].parent.Some? && Under(w.h, w.lev, a, w.h[q].parent.value))
    ensures q in w.h && w.h[q].parent.Some? ==> Under(w.h, w.lev, w.h[q].parent.value, w.h[q].parent.value)
  {
    if q in w.h && q != w.root { ParentLevel(w.h, w.root, w.lev, w.n, q); }
  }

  /** `set_common_parent_stack_index_zero` sets the index of the nearest ancestor-or-self on the
      stack to 0 and changes nothing else. */
  method ResetNearest(h: Heap, stack: Stack, p: Ptr, ghost w: World) returns (next: Stack, ghost k: int)
    requires Good(w) && w.h == h
    ensures k < |stack| == |next| && forall i :: 0 <= i < |stack| ==> next[i].node == stack[i].node
    ensures k >= 0 ==> Nearest(w, stack, p, k) && next == stack[k := Entry(stack[k].node, 0)]
    ensures k < 0 ==> next == stack && forall j :: 0 <= j < |stack| ==> !Under(h, w.lev, stack[j].node, p)
    ensures NearestReset(w, stack, p, next)
  {
    hide LinkedDown, LinkedUp, NoTwins, Under;
    var up := Some(p);
    ghost var passed: set<Ptr> := {};
    UnderStep(w, p);
    while up.Some? && up.value in h
      invariant up.Some? && up.value in h ==> Under(h, w.lev, up.value, p)
      invariant up.Some? ==> up.value in h || up.value == p
      invariant forall a :: Under(h, w.lev, a, p) ==>
                a in passed || (up.Some? && up.value in h && Under(h, w.lev, a, up.value))
      invariant forall j :: 0 <= j < |stack| ==> stack[j].node !in passed
      decreases if up.Some? && up.value in h then w.lev[up.value] + 1 else 0
    {
      var q := up.value;
      for i := 0 to |stack|
        invariant forall j :: 0 <= j < i ==> stack[j].node != q
      {
        if stack[i].node == q {
          return stack[i := Entry(q, 0)], i;
        }
      }
      ParentBelow(w, q);
      UnderStep(w, q);
      if h[q].parent.Some? { UnderTrans(h, w.lev, h[q].parent.value, q, p); }
      passed, up := passed + {q}, h[q].parent;
    }
    return stack, -1;
  }

  /** After a scan request the node is ahead of the walk, unless it is cut off: the nearest
      ancestor-or-self on the stack starts over. The root at the bottom of the stack makes sure that
      there is one. */
  lemma RequestedIsAhead(w: World, s: Stack, p: Ptr, k: int)
    requires Good(w) && Nearest(w, s, p, k)
    ensures AheadOf(w, s[k := Entry(s[k].node, 0)], p)
    ensures p in Remaining(w, s[k := Entry(s[k].node, 0)]) <==> !Skipped(w, p)
  {
    var a := s[k].node;
    var next := s[k := Entry(a, 0)];
    AncestorInHeap(w, a, p);
    if p != a { var i := UnderDown(w.h, w.root, w.lev, w.n, a, p); }
    assert Ahead(w, next[k], p);
    RemainingMembers(w, next, p);
  }

  lemma RootIsNearEnough(w: World, s: Stack, p: Ptr)
    requires Good(w) && s != [] && s[0].node == w.root && p in w.h
    ensures exists j :: 0 <= j < |s| && Under(w.h, w.lev, s[j].node, p)
  {
    UnderRoot(w.h, w.root, w.lev, w.n, p);
    assert Under(w.h, w.lev, s[0].node, p);
  }

  // -- What keeps a node ahead ------------------------------------------------------------

  /** Starting any entry over only adds to what is ahead. */
  lemma ResetKeepsAhead(w: World, s: Stack, k: nat, q: Ptr)
    requires k < |s| && AheadOf(w, s, q)
    ensures AheadOf(w, s[k := Entry(s[k].node, 0)], q)
  {
    var i :| 0 <= i < |s| && Ahead(w, s[i], q);
    assert Ahead(w, s[k := Entry(s[k].node, 0)][i], q);
  }

  /** Pausing and resuming nodes does not move the walk. */
  lemma PauseKeepsAhead(w: World, paused: set<Ptr>, s: Stack, q: Ptr)
    ensures AheadOf(w, s, q) <==> AheadOf(w.(paused := paused), s, q)
  {
    assert forall e :: Ahead(w, e, q) <==> Ahead(w.(paused := paused), e, q);
  }

  /** The world after a child is added at the end of the children of `p`. */
  ghost function Grown(w: World, p: Ptr, c: Ptr, typ: nat): World
    requires p in w.h && p in w.lev
  {
    w.(h := WithChild(w.h, p, c, 0, typ), lev := w.lev[c := w.lev[p] + 1], n := w.n + 1)
  }

  lemma {:induction false} GrownUnder(w: World, p: Ptr, c: Ptr, typ: nat, a: Ptr, q: Ptr)
    requires Good(w) && p in w.h && c !in w.h && q in w.h
    ensures Under(w.h, w.lev, a, q) ==> var g := Grown(w, p, c, typ); Under(g.h, g.lev, a, q)
    decreases w.lev[q]
  {
    if Under(w.h, w.lev, a, q) && q != a {
      ParentBelow(w, q);
      GrownUnder(w, p, c, typ, a, w.h[q].parent.value);
    }
  }

  /** The index of the entry was one beyond the children, which counts as 0, and the new child makes it the
      end of the children. */
  ghost predicate Outgrown(w: World, p: Ptr, e: Entry, q: Ptr) {
    e.node == p && q != p && p in w.h && e.index == |w.h[p].children| + 1
  }

  /** Adding a node under `p` keeps a node ahead of an entry if and only if it does not turn an index beyond
      the children of `p` into their end. */
  lemma GrowthKeepsAheadIff(w: World, p: Ptr, c: Ptr, typ: nat, e: Entry, q: Ptr)
    requires Good(w) && p in w.h && c !in w.h && Ahead(w, e, q)
    ensures Ahead(Grown(w, p, c, typ), e, q) <==> !Outgrown(w, p, e, q)
  {
    var g := Grown(w, p, c, typ);
    if q != e.node && !Outgrown(w, p, e, q) {
      var cs := w.h[e.node].children;
      var j :| At(e.index, |cs|) <= j < |cs| && Under(w.h, w.lev, cs[j], q);
      GrownUnder(w, p, c, typ, cs[j], q);
      assert g.h[e.node].children[j] == cs[j];
    }
  }

  // -- Deletion ---------------------------------------------------------------------------

  ghost function Shrunk(w: World, d: Ptr): World {
    w.(h := Removed(w.h, {d}))
  }

  lemma {:induction false} ShrunkUnder(w: World, d: Ptr, a: Ptr, q: Ptr)
    requires Good(w) && d in w.h && d != w.root && w.h[d].children == [] && q in w.h && q != d
    ensures Under(Shrunk(w, d).h, w.lev, a, q) <==> Under(w.h, w.lev, a, q)
    decreases w.lev[q]
  {
    if q != w.root {
      ParentBelow(w, q);
      LeafHasNoChild(w.h, w.root, d, q);
      ShrunkUnder(w, d, a, w.h[q].parent.value);
    }
  }

  /** The next child of the entry moves to a place that the index is already past. */
  ghost predicate MovedPast(w: World, d: Ptr, j: nat, e: Entry, q: Ptr) {
    e.node in w.h && d in w.h && w.h[d].parent == Some(e.node) &&
    j < e.index < |w.h[e.node].children| && Under(w.h, w.lev, w.h[e.node].children[e.index], q)
  }

  lemma KeepLast(front: seq<Ptr>, last: Ptr, gone: set<Ptr>)
    ensures Keep(front + [last], gone) == if last in gone then Keep(front, gone) else Keep(front, gone) + [last]
  {
    assert (front + [last])[..|front|] == front;
  }

  lemma {:induction false} KeepAllButOne(cs: seq<Ptr>, j: nat)
    requires Distinct(cs) && j < |cs|
    ensures Keep(cs, {cs[j]}) == cs[..j] + cs[j + 1..]
  {
    hide Keep;
    var m := |cs| - 1;
    var front, d := cs[..m], cs[j];
    assert cs == front + [cs[m]];
    KeepLast(front, cs[m], {d});
    if j < m {
      KeepAllButOne(front, j);
      Splice(cs, j);
    } else {
      assert cs[j + 1..] == [] && cs[..j] == front;
    }
  }

  lemma Splice(cs: seq<Ptr>, j: nat)
    requires j < |cs| - 1
    ensures var front := cs[..|cs| - 1]; (front[..j] + front[j + 1..]) + [cs[|cs| - 1]] == cs[..j] + cs[j + 1..]
  {
  }

  /** The entries of other nodes are not affected by a deletion. */
  lemma OtherEntryKeeps(w: World, d: Ptr, e: Entry, q: Ptr)
    requires Good(w) && d in w.h && d != w.root && w.h[d].children == [] && q != d
    requires e.node in w.h && w.h[d].parent != Some(e.node) && Ahead(w, e, q)
    ensures e.node != d && Ahead(Shrunk(w, d), e, q)
  {
    hide LinkedUp, NoTwins;
    OnlyParentLinks(w.h, w.lev, d, e.node);
    var cs := w.h[e.node].children;
    assert Shrunk(w, d).h[e.node].children == cs;
    if q != e.node {
      var i :| At(e.index, |cs|) <= i < |cs| && Under(w.h, w.lev, cs[i], q);
      ShrunkUnder(w, d, cs[i], q);
    }
  }

  /** The children of the parent after the deletion of child `j`. */
  lemma ParentAfter(w: World, d: Ptr, p: Ptr, j: nat)
    requires Good(w) && d in w.h && d != w.root && p in w.h && j < |w.h[p].children| && w.h[p].children[j] == d
    ensures p != d && w.h[d].parent == Some(p) && p in Shrunk(w, d).h
    ensures var cs, ds := w.h[p].children, Shrunk(w, d).h[p].children;
            |ds| == |cs| - 1 && forall m :: 0 <= m < |ds| ==> ds[m] == cs[if m < j then m else m + 1]
  {
    hide LinkedUp, Keep;
    var cs := w.h[p].children;
    assert w.h[cs[j]].parent == Some(p) && w.lev[d] == w.lev[p] + 1;
    assert Shrunk(w, d).h[p].children == Keep(cs, {d});
    hide LinkedDown, Removed;
    assert Distinct(cs);
    KeepAllButOne(cs, j);
  }

  lemma ParentEntryKeeps(w: World, d: Ptr, j: nat, e: Entry, q: Ptr)
    requires Good(w) && d in w.h && d != w.root && w.h[d].children == [] && q != d && q in w.h
    requires e.node in w.h && j < |w.h[e.node].children| && w.h[e.node].children[j] == d
    requires Ahead(w, e, q) && !MovedPast(w, d, j, e, q)
    ensures e.node in Shrunk(w, d).h && Ahead(Shrunk(w, d), e, q)
  {
    hide Good, Removed, Under, Shrunk;
    ParentAfter(w, d, e.node, j);
    var cs := w.h[e.node].children;
    var ds := Shrunk(w, d).h[e.node].children;
    if q != e.node {
      var i :| At(e.index, |cs|) <= i < |cs| && Under(w.h, w.lev, cs[i], q);
      assert i != j by { if i == j { LeafOnly(w, d, q); } }
      var m := if i < j then i else i - 1;
      assert ds[m] == cs[i];
      ShrunkUnder(w, d, cs[i], q);
      SameLevels(w, d);
      assert At(e.index, |ds|) <= m < |ds|;
    }
  }

  lemma SameLevels(w: World, d: Ptr)
    ensures Shrunk(w, d).lev == w.lev
  {
  }

  lemma LeafOnly(w: World, d: Ptr, q: Ptr)
    requires Good(w) && d in w.h && w.h[d].children == [] && Under(w.h, w.lev, d, q)
    ensures q == d
  {
    if q != d { var i := UnderDown(w.h, w.root, w.lev, w.n, d, q); }
  }

  lemma ParentEntryLoses(w: World, d: Ptr, j: nat, e: Entry, q: Ptr)
    requires Good(w) && d in w.h && d != w.root && w.h[d].children == [] && q != d && q in w.h
    requires e.node in w.h && j < |w.h[e.node].children| && w.h[e.node].children[j] == d
    requires MovedPast(w, d, j, e, q)
    ensures !Ahead(Shrunk(w, d), e, q)
  {
    hide Good, Removed, Under, Shrunk;
    ParentAfter(w, d, e.node, j);
    SameLevels(w, d);
    var cs := w.h[e.node].children;
    var ds := Shrunk(w, d).h[e.node].children;
    NotTheParent(w, e.node, e.index, q);
    forall m | At(e.index, |ds|) <= m < |ds| ensures !Under(Shrunk(w, d).h, w.lev, ds[m], q) {
      assert ds[m] == cs[m + 1];
      ShrunkUnder(w, d, cs[m + 1], q);
      OnlyOneChild(w, e.node, e.index, m + 1, q);
    }
  }

  lemma NotTheParent(w: World, p: Ptr, i: nat, q: Ptr)
    requires Good(w) && p in w.h && i < |w.h[p].children| && Under(w.h, w.lev, w.h[p].children[i], q)
    ensures q != p
  {
    UnderLevel(w.h, w.lev, w.h[p].children[i], q);
  }

  lemma OnlyOneChild(w: World, p: Ptr, i: nat, k: nat, q: Ptr)
    requires Good(w) && p in w.h && i < |w.h[p].children| && k < |w.h[p].children| && i != k
    requires Under(w.h, w.lev, w.h[p].children[i], q)
    ensures !Under(w.h, w.lev, w.h[p].children[k], q)
  {
    var a, b := w.h[p].children[i], w.h[p].children[k];
    if Under(w.h, w.lev, b, q) { UnderDisjoint(w.h, w.lev, a, b, q); }
  }

  /** Deleting a node keeps another node ahead of the walk if and only if it does not move the next
      child of an entry to a place before the index of that entry. The children of a node are
      counted anew after every deletion, and the index on the stack is not corrected. */
  lemma DeletionKeepsAheadIff(w: World, d: Ptr, j: nat, e: Entry, q: Ptr)
    requires Good(w) && d in w.h && d != w.root && w.h[d].children == [] && q != d && q in w.h
    requires var p := w.h[d].parent;
             p.Some? && p.value in w.h && j < |w.h[p.value].children| &&
             w.h[p.value].children[j] == d
    requires Ahead(w, e, q)
    ensures Ahead(Shrunk(w, d), e, q) <==> !MovedPast(w, d, j, e, q)
  {
    if w.h[d].parent != Some(e.node) { OtherEntryKeeps(w, d, e, q); }
    else if MovedPast(w, d, j, e, q) { ParentEntryLoses(w, d, j, e, q); }
    else { ParentEntryKeeps(w, d, j, e, q); }
  }

  /** A concrete instance: children 2 and 3 of the root, and a walk that has descended to the first
      of them. Deleting node 2 makes the walk skip node 3, which is neither paused nor
      deleted. */
  lemma DeletionSkipsSibling()
    ensures var w, s := TwoChildren(), [Entry(1, 1)];
            Good(w) && Good(Shrunk(w, 2)) && 3 in Remaining(w, s) && 3 !in Remaining(Shrunk(w, 2), s)
  {
    var w := TwoChildren();
    var e := Entry(1, 1);
    TwoChildrenGood();
    TwoChildrenMoved();
    hide TwoChildren, Good, Under, Shrunk;
    DeletionKeepsAheadIff(w, 2, 0, e, 3);
    AheadOfOne(w, e, 3);
    AheadOfOne(Shrunk(w, 2), e, 3);
    RemainingMembers(w, [e], 3);
    RemainingMembers(Shrunk(w, 2), [e], 3);
  }

  lemma AheadOfOne(w: World, e: Entry, q: Ptr)
    ensures AheadOf(w, [e], q) <==> Ahead(w, e, q)
  {
    assert [e][0] == e;
  }

  ghost function Grandchild(): World {
    World(map[1 := Node(0, 0, None, [3], [], []), 3 := Node(0, 0, Some(1), [6], [], []),
        6 := Node(0, 0, Some(3), [], [], [])],
          1, map[1 := 0, 3 := 1, 6 := 2], 2, {})
  }

  lemma GrandchildGood()
    ensures Good(Grandchild())
  {
    var h := Grandchild().h;
    assert h[1].children[0] == 3 && h[3].children[0] == 6;
  }

  lemma GrandchildAhead()
    ensures var w := Grandchild();
            Ahead(w, Entry(1, 2), 6) && !Ahead(Grown(w, 6, 7, 0), Entry(3, 1), 6) &&
            !Ahead(Grown(w, 1, 7, 0), Entry(3, 1), 6)
  {
    var w := Grandchild();
    assert w.h[1].children[0] == 3;
    assert Under(w.h, w.lev, 3, 3);
    assert Under(w.h, w.lev, 3, 6);
  }

  /** The root has one child, the index of its entry is 2, and so the grandchild is ahead. Adding a second child
      of the root makes the walk skip the grandchild; adding a node elsewhere does not. */
  lemma AdditionSkipsGrandchild()
    ensures var w, s := Grandchild(), [Entry(1, 2), Entry(3, 1)];
            Good(w) && AheadOf(w, s, 6) && !AheadOf(Grown(w, 1, 7, 0), s, 6) && AheadOf(Grown(w, 6, 7, 0), s, 6)
  {
    hide Ahead, Good;
    var w, s := Grandchild(), [Entry(1, 2), Entry(3, 1)];
    GrandchildGood();
    GrandchildAhead();
    assert Ahead(w, s[0], 6);
    GrowthKeepsAheadIff(w, 1, 7, 0, s[0], 6);
    GrowthKeepsAheadIff(w, 6, 7, 0, s[0], 6);
    assert Ahead(Grown(w, 6, 7, 0), s[0], 6);
  }

  ghost function TwoChildren(): World {
    var leaf := Node(0, 0, Some(1), [], [], []);
    var top := Node(0, 0, None, [2, 3], [], []);
    World(map[1 := top, 2 := leaf, 3 := leaf], 1, map[1 := 0, 2 := 1, 3 := 1], 1, {})
  }

  lemma TwoChildrenDown()
    ensures LinkedDown(TwoChildren().h, TwoChildren().lev) && NoTwins(TwoChildren().h)
  {
    var cs := TwoChildren().h[1].children;
    assert cs[0] == 2 && cs[1] == 3;
  }

  lemma TwoChildrenUp()
    ensures LinkedUp(TwoChildren().h, 1) && Levelled(TwoChildren().h, 1, TwoChildren().lev, 1)
  {
    var cs := TwoChildren().h[1].children;
    assert cs[0] == 2 && cs[1] == 3;
  }

  lemma TwoChildrenGood()
    ensures Good(TwoChildren()) && Good(Shrunk(TwoChildren(), 2))
  {
    hide Removed, LinkedDown, LinkedUp, NoTwins, Levelled;
    var w := TwoChildren();
    TwoChildrenDown();
    TwoChildrenUp();
    assert IsTree(w.h, 1, w.lev, 1);
    RemovedLeafTree(w.h, 1, w.lev, 1, 2);
  }

  lemma TwoChildrenMoved()
    ensures var w, e := TwoChildren(), Entry(1, 1);
            1 in w.h && 2 in w.h && 3 in w.h && w.root == 1 && w.h[2].children == [] && w.h[2].parent == Some(1) &&
            w.h[1].children == [2, 3] && Ahead(w, e, 3) && MovedPast(w, 2, 0, e, 3) && !Skipped(w, 3)
  {
    var w := TwoChildren();
    var cs := w.h[1].children;
    assert cs[1] == 3;
    assert Under(w.h, w.lev, cs[1], 3);
  }
}
