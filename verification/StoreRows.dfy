/** The id index over the node heap, and the rows that the heap stands for. */
module StoreRows {
  import opened Common
  import opened StoreLedger
  import opened NodeHeap

  type Index = map<Id, Ptr>

  /** The index holds exactly the nodes of the heap, each under its own id. */
  ghost predicate Indexed(h: Heap, index: Index) {
    && (forall p {:trigger h[p].id} :: p in h ==> h[p].id in index && index[h[p].id] == p)
    && (forall id {:trigger index[id]} :: id in index ==> index[id] in h && h[index[id]].id == id)
  }

  function ParentId(h: Heap, node: Node): Id {
    if node.parent.Some? && node.parent.value in h then h[node.parent.value].id else INVALID
  }

  function RowOf(h: Heap, node: Node): Row {
    Row(node.typ, ParentId(h, node), node.reported, node.desired)
  }

  /** The contents of the tree, by id. */
  ghost function Rows(h: Heap, index: Index): map<Id, Row>
    requires Indexed(h, index)
  {
    map id | id in index :: RowOf(h, h[index[id]])
  }

  /** The heap is a tree, the id map agrees with it, and pointers from `next` on are unused. */
  ghost predicate WellShaped(h: Heap, root: Ptr, lev: Levels, n: nat, index: Index, next: Ptr) {
    && IsTree(h, root, lev, n)
    && Indexed(h, index)
    && h[root].id == ROOT && INVALID !in index
    && forall p :: p in h ==> p < next
  }

  lemma RootInHeap(h: Heap, root: Ptr, lev: Levels, n: nat)
    requires IsTree(h, root, lev, n)
    ensures root in h && h[root].parent.None? && root in lev
  {
  }

  /** A root without children, as the store starts. */
  lemma OnlyRoot(typ: nat)
    ensures var h := map[0 := Node(ROOT, typ, None, [], [], [])];
            WellShaped(h, 0, map[0 := 0], 0, map[ROOT := 0], 1) &&
            Rows(h, map[ROOT := 0]) == map[ROOT := Row(typ, INVALID, [], [])]
  {
    var h := map[0 := Node(ROOT, typ, None, [], [], [])];
    assert IsTree(h, 0, map[0 := 0], 0);
    assert Indexed(h, map[ROOT := 0]);
  }

  lemma RowsKeys(h: Heap, index: Index)
    requires Indexed(h, index)
    ensures Rows(h, index).Keys == index.Keys
  {
  }

  lemma RowAt(h: Heap, index: Index, id: Id)
    requires Indexed(h, index) && id in index
    ensures index[id] in h && h[index[id]].id == id && id in Rows(h, index) &&
            Rows(h, index)[id] == RowOf(h, h[index[id]])
  {
  }

  // -- Adding a child ---------------------------------------------------------------------

  function WithChild(h: Heap, p: Ptr, c: Ptr, id: Id, typ: nat): Heap
    requires p in h
  {
    h[p := h[p].(children := h[p].children + [c])][c := Node(id, typ, Some(p), [], [], [])]
  }

  lemma WithChildDown(h: Heap, lev: Levels, p: Ptr, c: Ptr, id: Id, typ: nat)
    requires LinkedDown(h, lev) && p in h && p in lev && c !in h
    ensures LinkedDown(WithChild(h, p, c, id, typ), lev[c := lev[p] + 1])
  {
    var g, l := WithChild(h, p, c, id, typ), lev[c := lev[p] + 1];
    forall q, i {:trigger g[q].children[i]} | q in g && 0 <= i < |g[q].children|
      ensures var k := g[q].children[i]; k in g && k in l && q in l && g[k].parent == Some(q) && l[k] == l[q] + 1
    {
      if q == p && i == |h[p].children| { assert g[q].children[i] == c; }
      else { assert g[q].children[i] == h[q].children[i]; }
    }
  }

  lemma WithChildUp(h: Heap, root: Ptr, p: Ptr, c: Ptr, id: Id, typ: nat)
    requires LinkedUp(h, root) && p in h && c !in h
    ensures LinkedUp(WithChild(h, p, c, id, typ), root)
  {
    var g := WithChild(h, p, c, id, typ);
    forall q {:trigger g[q].parent} | q in g && q != root
      ensures g[q].parent.Some? && g[q].parent.value in g && q in g[g[q].parent.value].children
    {
      if q == c { assert g[p].children[|h[p].children|] == c; } else { assert g[q].parent == h[q].parent; }
    }
  }

  lemma WithChildTwins(h: Heap, lev: Levels, p: Ptr, c: Ptr, id: Id, typ: nat)
    requires LinkedDown(h, lev) && NoTwins(h) && p in h && c !in h
    ensures NoTwins(WithChild(h, p, c, id, typ))
  {
    var g := WithChild(h, p, c, id, typ);
    forall q, i, j | q in g && 0 <= i < j < |g[q].children| ensures g[q].children[i] != g[q].children[j] {
      assert g[q].children[i] == h[q].children[i];
      if j < |h[q].children| { assert g[q].children[j] == h[q].children[j]; }
    }
  }

  lemma WithChildTree(h: Heap, root: Ptr, lev: Levels, n: nat, p: Ptr, c: Ptr, id: Id, typ: nat)
    requires IsTree(h, root, lev, n) && p in h && c !in h
    ensures IsTree(WithChild(h, p, c, id, typ), root, lev[c := lev[p] + 1], n + 1)
  {
    WithChildDown(h, lev, p, c, id, typ);
    WithChildUp(h, root, p, c, id, typ);
    WithChildTwins(h, lev, p, c, id, typ);
  }

  lemma WithChildIndexed(h: Heap, index: Index, p: Ptr, c: Ptr, id: Id, typ: nat)
    requires Indexed(h, index) && p in h && c !in h && id !in index
    ensures Indexed(WithChild(h, p, c, id, typ), index[id := c])
  {
    var g, ix := WithChild(h, p, c, id, typ), index[id := c];
    forall k {:trigger g[k].id} | k in g ensures g[k].id in ix && ix[g[k].id] == k {
      if k != c { assert g[k].id == h[k].id; }
    }
    forall x {:trigger ix[x]} | x in ix ensures ix[x] in g && g[ix[x]].id == x {
      if x != id { assert index[x] in h; }
    }
  }

  lemma WithChildRows(h: Heap, index: Index, p: Ptr, c: Ptr, id: Id, typ: nat)
    requires Indexed(h, index) && p in h && c !in h && id !in index
    requires forall q :: q in h && h[q].parent.Some? ==> h[q].parent.value in h
    ensures Indexed(WithChild(h, p, c, id, typ), index[id := c])
    ensures Rows(WithChild(h, p, c, id, typ), index[id := c]) == Rows(h, index)[id := Row(typ, h[p].id, [], [])]
  {
    WithChildIndexed(h, index, p, c, id, typ);
    var g, ix := WithChild(h, p, c, id, typ), index[id := c];
    forall k | k in ix ensures RowOf(g, g[ix[k]]) == Rows(h, index)[id := Row(typ, h[p].id, [], [])][k] {
      if k != id { assert index[k] in h; }
    }
    SameRows(g, ix, Rows(h, index)[id := Row(typ, h[p].id, [], [])]);
  }

  lemma ParentsInHeap(h: Heap, root: Ptr)
    requires root in h && h[root].parent.None? && LinkedUp(h, root)
    ensures forall q :: q in h && h[q].parent.Some? ==> h[q].parent.value in h
  {
  }

  lemma WithChildShape(h: Heap, root: Ptr, lev: Levels, n: nat, index: Index, next: Ptr, p: Ptr, id: Id, typ: nat)
    requires WellShaped(h, root, lev, n, index, next) && p in h && id !in index && id != INVALID
    ensures p in lev
    ensures WellShaped(WithChild(h, p, next, id, typ), root, lev[next := lev[p] + 1], n + 1, index[id := next],
            next + 1)
    ensures Rows(WithChild(h, p, next, id, typ), index[id := next]) == Rows(h, index)[id := Row(typ, h[p].id, [], [])]
    ensures next in WithChild(h, p, next, id, typ) && WithChild(h, p, next, id, typ)[next].id == id && next != root
  {
    hide LinkedDown, NoTwins;
    WithChildTree(h, root, lev, n, p, next, id, typ);
    ParentsInHeap(h, root);
    WithChildRows(h, index, p, next, id, typ);
  }

  // -- Changing a value -------------------------------------------------------------------

  /** Same node, other values. */
  predicate SameLinks(a: Node, b: Node) {
    a.id == b.id && a.typ == b.typ && a.parent == b.parent && a.children == b.children
  }

  lemma ValueChangeTree(h: Heap, root: Ptr, lev: Levels, n: nat, p: Ptr, node: Node)
    requires IsTree(h, root, lev, n) && p in h && SameLinks(h[p], node)
    ensures IsTree(h[p := node], root, lev, n)
  {
    var g := h[p := node];
    assert LinkedDown(g, lev) by {
      forall q, i {:trigger g[q].children[i]} | q in g && 0 <= i < |g[q].children|
        ensures var k := g[q].children[i];
                k in g && k in lev && q in lev && g[k].parent == Some(q) &&
                lev[k] == lev[q] + 1
      {
        assert g[q].children[i] == h[q].children[i];
      }
    }
    assert LinkedUp(g, root) by {
      forall q {:trigger g[q].parent} | q in g && q != root
        ensures g[q].parent.Some? && g[q].parent.value in g && q in g[g[q].parent.value].children
      {
        assert g[q].parent == h[q].parent;
      }
    }
    assert NoTwins(g) by {
      forall q, i, j | q in g && 0 <= i < j < |g[q].children| ensures g[q].children[i] != g[q].children[j] {
        assert g[q].children == h[q].children;
      }
    }
  }

  lemma ValueChangeRows(h: Heap, index: Index, p: Ptr, node: Node)
    requires Indexed(h, index) && p in h && SameLinks(h[p], node)
    ensures Indexed(h[p := node], index)
    ensures Rows(h[p := node], index) == Rows(h, index)[node.id := RowOf(h, node)]
  {
    var g := h[p := node];
    assert h[p].id == node.id;
    forall id | id in index ensures Rows(g, index)[id] == Rows(h, index)[node.id := RowOf(h, node)][id] {
      assert ParentId(g, g[index[id]]) == ParentId(h, h[index[id]]);
    }
  }

  // -- Removing a leaf --------------------------------------------------------------------

  lemma LeafHasNoChild(h: Heap, root: Ptr, q: Ptr, k: Ptr)
    requires LinkedUp(h, root) && q in h && h[q].children == [] && k in h && k != root
    ensures h[k].parent.Some? && h[k].parent.value in h && h[k].parent.value != q
  {
    assert k in h[h[k].parent.value].children;
  }

  lemma RemovedLeafTree(h: Heap, root: Ptr, lev: Levels, n: nat, q: Ptr)
    requires IsTree(h, root, lev, n) && q in h && q != root && h[q].children == []
    ensures IsTree(Removed(h, {q}), root, lev, n)
  {
    forall k | k in h && k != root ensures h[k].parent.value !in {q} { LeafHasNoChild(h, root, q, k); }
    RemovedTree(h, root, lev, n, {q});
  }

  lemma RemovedIndexed(h: Heap, index: Index, q: Ptr)
    requires Indexed(h, index) && q in h
    ensures Indexed(Removed(h, {q}), index - {h[q].id})
  {
    var g, ix := Removed(h, {q}), index - {h[q].id};
    assert forall k :: k in g ==> g[k].id == h[k].id;
    forall k {:trigger g[k].id} | k in g ensures g[k].id in ix && ix[g[k].id] == k {
      assert index[h[k].id] == k && index[h[q].id] == q;
    }
    forall id {:trigger ix[id]} | id in ix ensures ix[id] in g && g[ix[id]].id == id {
      assert index[id] in h && h[index[id]].id == id;
    }
  }

  lemma RemovedLeafRows(h: Heap, root: Ptr, index: Index, q: Ptr)
    requires root in h && h[root].parent.None? && LinkedUp(h, root)
    requires Indexed(h, index) && q in h && q != root && h[q].children == []
    ensures Indexed(Removed(h, {q}), index - {h[q].id})
    ensures Rows(Removed(h, {q}), index - {h[q].id}) == Rows(h, index) - {h[q].id}
  {
    RemovedIndexed(h, index, q);
    var g, ix := Removed(h, {q}), index - {h[q].id};
    forall k | k in ix ensures RowOf(g, g[ix[k]]) == RowOf(h, h[index[k]]) {
      RemovedRow(h, root, q, index[k]);
    }
    SameRows(g, ix, Rows(h, index) - {h[q].id});
  }

  lemma RemovedRow(h: Heap, root: Ptr, q: Ptr, k: Ptr)
    requires root in h && h[root].parent.None? && LinkedUp(h, root)
    requires q in h && h[q].children == [] && k in h && k != q
    ensures k in Removed(h, {q}) && RowOf(Removed(h, {q}), Removed(h, {q})[k]) == RowOf(h, h[k])
  {
    if k != root { LeafHasNoChild(h, root, q, k); }
  }

  lemma SameRows(g: Heap, ix: Index, rows: map<Id, Row>)
    requires Indexed(g, ix) && ix.Keys == rows.Keys
    requires forall k :: k in ix ==> RowOf(g, g[ix[k]]) == rows[k]
    ensures Rows(g, ix) == rows
  {
    assert Rows(g, ix).Keys == rows.Keys;
  }

  lemma LeafShape(h: Heap, root: Ptr, lev: Levels, n: nat, index: Index, next: Ptr, q: Ptr)
    requires WellShaped(h, root, lev, n, index, next) && q in h && q != root && h[q].children == []
    ensures WellShaped(Removed(h, {q}), root, lev, n, index - {h[q].id}, next)
    ensures Rows(Removed(h, {q}), index - {h[q].id}) == Rows(h, index) - {h[q].id}
  {
    hide LinkedDown, NoTwins, Keep;
    RemovedLeafTree(h, root, lev, n, q);
    RemovedLeafRows(h, root, index, q);
  }

  lemma OnlyParentLinks(h: Heap, lev: Levels, q: Ptr, k: Ptr)
    requires LinkedDown(h, lev) && q in h && k in h && h[q].parent != Some(k)
    ensures Keep(h[k].children, {q}) == h[k].children
  {
    forall c | c in h[k].children ensures c != q {
      var i :| 0 <= i < |h[k].children| && h[k].children[i] == c;
    }
  }

  /** Only the parent links to a node, so unlinking it there removes every link to it. */
  lemma UnlinkIsRemoved(h: Heap, root: Ptr, lev: Levels, n: nat, q: Ptr)
    requires IsTree(h, root, lev, n) && q in h && q != root
    ensures h[q].parent.Some? && h[q].parent.value in h && h[q].parent.value != q
    ensures var p := h[q].parent.value;
            (h - {q})[p := h[p].(children := Keep(h[p].children, {q}))] == Removed(h, {q})
  {
    ParentLevel(h, root, lev, n, q);
    var p := h[q].parent.value;
    forall k | k in h && k != p ensures Keep(h[k].children, {q}) == h[k].children { OnlyParentLinks(h, lev, q, k); }
    UnlinkEqual(h, p, q);
  }

  lemma UnlinkEqual(h: Heap, p: Ptr, q: Ptr)
    requires p in h && p != q
    requires forall k :: k in h && k != p ==> Keep(h[k].children, {q}) == h[k].children
    ensures (h - {q})[p := h[p].(children := Keep(h[p].children, {q}))] == Removed(h, {q})
  {
    var a, b := (h - {q})[p := h[p].(children := Keep(h[p].children, {q}))], Removed(h, {q});
    assert a.Keys == b.Keys;
  }

  // -- The recursion of a deletion --------------------------------------------------------

  ghost function SetOf(s: seq<Ptr>): set<Ptr> { set q | q in s }

  /** While the first `k` children of `p` are gone, the others are untouched. */
  lemma KidsGone(h: Heap, root: Ptr, lev: Levels, n: nat, p: Ptr, k: nat)
    requires IsTree(h, root, lev, n) && p in h && k <= |h[p].children|
    ensures var gone := SetOf(Kids(h, h[p].children, k, n - lev[p]));
            p !in gone && root !in gone && Keep(h[p].children, gone) == h[p].children[k..]
  {
    var cs, f := h[p].children, n - lev[p];
    var ks := Kids(h, cs, k, f);
    var gone := SetOf(ks);
    forall q | q in ks ensures q != p && q != root { KidsBelow(h, root, lev, n, p, k, f, q); }
    forall i | 0 <= i < |cs| ensures cs[i] in gone <==> i < k {
      PostOrderIsSubtree(h, root, lev, n, cs[i], f, cs[i]);
      KidsMember(h, cs, k, f, cs[i]);
      if i >= k && cs[i] in ks {
        var j :| 0 <= j < k && cs[i] in PostOrder(h, cs[j], f);
        PostOrderIsSubtree(h, root, lev, n, cs[j], f, cs[i]);
        UnderLevel(h, lev, cs[j], cs[i]);
      }
    }
    KeepSuffix(cs, k, gone);
  }

  /** The part of the tree that the first `k` children contribute can be removed on its own. */
  lemma KidsRemovable(h: Heap, root: Ptr, lev: Levels, n: nat, p: Ptr, k: nat)
    requires IsTree(h, root, lev, n) && p in h && k <= |h[p].children|
    ensures IsTree(Removed(h, SetOf(Kids(h, h[p].children, k, n - lev[p]))), root, lev, n)
  {
    var ks := Kids(h, h[p].children, k, n - lev[p]);
    KidsGone(h, root, lev, n, p, k);
    forall q | q in h && q != root && h[q].parent.value in SetOf(ks) ensures q in SetOf(ks) {
      KidsClosed(h, root, lev, n, p, k, q);
    }
    RemovedTree(h, root, lev, n, SetOf(ks));
  }

  /** Then the next child still has its post-order. */
  lemma NextKidIntact(h: Heap, root: Ptr, lev: Levels, n: nat, p: Ptr, k: nat)
    requires IsTree(h, root, lev, n) && p in h && k < |h[p].children|
    ensures PostOrder(Removed(h, SetOf(Kids(h, h[p].children, k, n - lev[p]))), h[p].children[k], n - lev[p]) ==
            PostOrder(h, h[p].children[k], n - lev[p])
  {
    var f, c := n - lev[p], h[p].children[k];
    var ks, next := Kids(h, h[p].children, k, f), PostOrder(h, c, f);
    forall q | q in next ensures q !in SetOf(ks) {
      if q in ks { KidsApart(h, root, lev, n, p, k, f, q); }
    }
    PostOrderFrame(h, lev, c, f, SetOf(ks));
  }

  lemma KidsClosed(h: Heap, root: Ptr, lev: Levels, n: nat, p: Ptr, k: nat, q: Ptr)
    requires IsTree(h, root, lev, n) && p in h && k <= |h[p].children| && q in h && q != root
    requires h[q].parent.value in Kids(h, h[p].children, k, n - lev[p])
    ensures q in Kids(h, h[p].children, k, n - lev[p])
  {
    hide LinkedUp, NoTwins, PostOrder, Kids;
    var cs, f := h[p].children, n - lev[p];
    ParentLevel(h, root, lev, n, q);
    KidsMember(h, cs, k, f, h[q].parent.value);
    KidsMember(h, cs, k, f, q);
    var i :| 0 <= i < k && h[q].parent.value in PostOrder(h, cs[i], f);
    PostOrderIsSubtree(h, root, lev, n, cs[i], f, h[q].parent.value);
    PostOrderIsSubtree(h, root, lev, n, cs[i], f, q);
    assert Under(h, lev, cs[i], q);
  }
}
