/** The values, the bookkeeping entries and the queries of the attribute resolver. */
module ResolverState {
  import opened Common
  import opened StoreLedger
  import opened NodeHeap
  import opened ResolverWalk
  import opened RuleGroups
  import opened ScanRequests

  datatype Val = Val(reported: seq<Byte>, desired: seq<Byte>)

  datatype PendingGet = PendingGet(timeout: nat, count: nat)

  datatype Event = Next | Watch(node: Ptr) | TimerSet(delay: nat)

  type Values = map<Ptr, Val>
  type Gets = map<Ptr, PendingGet>
  type Times = map<Ptr, nat>

  /** The attributes as the resolver sees them; an empty value is an undefined one. `numberOf` reads
      a value as a number, and `retries` is the configured retry count. */
  datatype Attrs = Attrs(book: Book, numberOf: (Typ, seq<Byte>) -> real, retries: Byte, tree: Heap, vals: Values)

  function ValOf(vals: Values, p: Ptr): Val {
    if p in vals then vals[p] else Val([], [])
  }

  /** `needs_get` */
  predicate NeedsGet(a: Attrs, p: Ptr) {
    p in a.tree && HasRule(a.book, a.tree[p].typ, GetRule) && ValOf(a.vals, p).reported == []
  }

  /** `needs_set` */
  predicate NeedsSet(a: Attrs, p: Ptr) {
    p in a.tree && HasRule(a.book, a.tree[p].typ, SetRule) &&
    ValOf(a.vals, p).desired != [] && ValOf(a.vals, p).desired != ValOf(a.vals, p).reported
  }

  /** `get_node_retry_count`: the desired value if it is a number from 1 to 255. */
  function Limit(a: Attrs, p: Ptr): (r: Byte) {
    var desired := ValOf(a.vals, p).desired;
    if p in a.tree && desired != [] && 1.0 <= a.numberOf(a.tree[p].typ, desired) <= 255.0
    then a.numberOf(a.tree[p].typ, desired).Floor
    else a.retries
  }

  /** `is_node_get_resolution_max_retries_reached` */
  predicate Exhausted(a: Attrs, gets: Gets, p: Ptr) {
    p in gets && gets[p].count >= Limit(a, p)
  }

  /** The node has a Get that is not exhausted, or a Set, to do. */
  predicate Unsettled(a: Attrs, gets: Gets, p: Ptr) {
    (NeedsGet(a, p) && !Exhausted(a, gets, p)) || NeedsSet(a, p)
  }

  ghost predicate AllSettled(w: World, a: Attrs, gets: Gets, p: Ptr) {
    forall q :: Under(w.h, w.lev, p, q) ==> !Unsettled(a, gets, q)
  }

  /** `attribute_resolver_node_or_child_needs_resolution` is true if and only if some node of the
      subtree has an unexhausted Get or a Set to do. */
  method NodeOrChildNeedsResolution(a: Attrs, gets: Gets, p: Ptr, ghost w: World) returns (r: bool)
    requires Good(w) && w.h == a.tree
    ensures !r <==> AllSettled(w, a, gets, p)
    decreases if p in w.h then w.n + 1 - w.lev[p] else 0
  {
    hide LinkedUp, NoTwins, Unsettled;
    if p !in a.tree {
      OutsideSettled(w, a, gets, p);
      return false;
    }
    assert Under(w.h, w.lev, p, p);
    if Unsettled(a, gets, p) { return true; }
    var cs := a.tree[p].children;
    for i := 0 to |cs|
      invariant forall j :: 0 <= j < i ==> AllSettled(w, a, gets, cs[j])
    {
      var below := NodeOrChildNeedsResolution(a, gets, cs[i], w);
      if below {
        ChildUnsettled(w, a, gets, p, i);
        return true;
      }
    }
    ChildrenSettled(w, a, gets, p);
    r := false;
  }

  lemma NothingOutside(w: World, p: Ptr, q: Ptr)
    requires Good(w) && p !in w.h
    ensures !Under(w.h, w.lev, p, q)
  {
    if Under(w.h, w.lev, p, q) { AncestorInHeap(w, p, q); }
  }

  lemma OutsideSettled(w: World, a: Attrs, gets: Gets, p: Ptr)
    requires Good(w) && p !in w.h
    ensures AllSettled(w, a, gets, p)
  {
    hide Under, Unsettled;
    forall q ensures !Under(w.h, w.lev, p, q) { NothingOutside(w, p, q); }
  }

  lemma ChildUnsettled(w: World, a: Attrs, gets: Gets, p: Ptr, i: nat)
    requires Good(w) && p in w.h && i < |w.h[p].children| && !AllSettled(w, a, gets, w.h[p].children[i])
    ensures !AllSettled(w, a, gets, p)
  {
    var q :| Under(w.h, w.lev, w.h[p].children[i], q) && Unsettled(a, gets, q);
    UnderUp(w.h, w.lev, p, w.h[p].children[i], q);
  }

  lemma ChildrenSettled(w: World, a: Attrs, gets: Gets, p: Ptr)
    requires Good(w) && p in w.h && !Unsettled(a, gets, p)
    requires forall j :: 0 <= j < |w.h[p].children| ==> AllSettled(w, a, gets, w.h[p].children[j])
    ensures AllSettled(w, a, gets, p)
  {
    hide Unsettled;
    forall q | Under(w.h, w.lev, p, q) ensures !Unsettled(a, gets, q) {
      if q != p { var j := UnderDown(w.h, w.root, w.lev, w.n, p, q); }
    }
  }

  /** `get_highest_parent_with_resolution_listener` */
  method HighestListener(tree: Heap, listeners: set<Ptr>, p: Ptr, ghost w: World) returns (r: Ptr)
    requires Good(w) && w.h == tree && 0 !in tree
    ensures r != 0 ==> r in listeners && (r == p || Under(tree, w.lev, r, p))
    ensures forall a :: a in listeners && Under(tree, w.lev, a, p) ==> r != 0 && Under(tree, w.lev, r, a)
  {
    hide LinkedDown, LinkedUp, NoTwins, Under;
    var up := p;
    r := 0;
    UnderStep(w, p);
    ghost var passed: set<Ptr> := {};
    while up != 0
      invariant up in tree || up == 0 || up == p
      invariant up in tree ==> Under(tree, w.lev, up, p) && forall a :: a in passed ==> Under(tree, w.lev, up, a)
      invariant r != 0 ==> r in listeners && (r == p || Under(tree, w.lev, r, p))
      invariant forall a :: Under(tree, w.lev, a, p) ==> a in passed || (up in tree && Under(tree, w.lev, a, up))
      invariant forall a :: a in passed && a in listeners ==> r != 0 && Under(tree, w.lev, r, a)
      decreases if up in tree then w.lev[up] + 2 else if up != 0 then 1 else 0
    {
      if up in listeners { r := up; }
      if up in tree {
        UnderStep(w, up);
        ParentBelow(w, up);
        passed := passed + {up};
        if tree[up].parent.Some? { ParentAboveAll(w, up, passed + {p}); }
      }
      up := if up in tree && tree[up].parent.Some? then tree[up].parent.value else 0;
    }
  }

  lemma ParentAboveAll(w: World, q: Ptr, below: set<Ptr>)
    requires Good(w) && q in w.h && w.h[q].parent.Some? && forall a :: a in below ==> Under(w.h, w.lev, q, a)
    ensures forall a :: a in below ==> Under(w.h, w.lev, w.h[q].parent.value, a)
  {
    hide LinkedDown, NoTwins;
    UnderStep(w, q);
    forall a | a in below ensures Under(w.h, w.lev, w.h[q].parent.value, a) {
      UnderTrans(w.h, w.lev, w.h[q].parent.value, q, a);
    }
  }
}
