/** Rebuilding the node heap from the rows of a datastore: first one node per row, in any order,
    then the links between them. */
module StoreLoad {
  import opened Common
  import opened StoreLedger
  import opened NodeHeap
  import opened StoreRows

  type Ranks = map<Id, nat>

  /** The rows form one tree: the root row has no parent, every other row has its parent on disk,
      one rank below it. */
  ghost predicate TreeOnDisk(disk: map<Id, Row>, rank: Ranks, n: nat) {
    && ROOT in disk && INVALID !in disk && disk[ROOT].parent == INVALID
    && disk.Keys <= rank.Keys
    && (forall id {:trigger rank[id]} :: id in disk ==> rank[id] <= n)
    && (forall id {:trigger disk[id]} :: id in disk && id != ROOT ==>
          disk[id].parent in disk && rank[id] == rank[disk[id].parent] + 1)
  }

  /** The rows form one tree. */
  ghost predicate OneTree(disk: map<Id, Row>) {
    exists rank: Ranks, n: nat :: TreeOnDisk(disk, rank, n)
  }

  /** There is a root row without a parent, and no row for no node. */
  predicate Rooted(disk: map<Id, Row>) {
    ROOT in disk && INVALID !in disk && disk[ROOT].parent == INVALID
  }

  ghost function RanksOf(h: Heap, lev: Levels, index: Index): Ranks {
    map id | id in index && index[id] in lev :: lev[index[id]]
  }

  /** The rows of a store tree form a tree on disk. */
  lemma RowsAreATree(h: Heap, root: Ptr, lev: Levels, n: nat, index: Index, next: Ptr)
    requires WellShaped(h, root, lev, n, index, next)
    ensures TreeOnDisk(Rows(h, index), RanksOf(h, lev, index), n)
  {
    hide LinkedDown, NoTwins;
    var rows, rank := Rows(h, index), RanksOf(h, lev, index);
    assert index[h[root].id] == root;
    forall id {:trigger rows[id]} | id in rows && id != ROOT
      ensures rows[id].parent in rows && rank[id] == rank[rows[id].parent] + 1
    {
      var p := index[id];
      assert h[p].id == id;
      ParentLevel(h, root, lev, n, p);
      var q := h[p].parent.value;
      assert index[h[q].id] == q;
    }
  }

  // -- One node per row -------------------------------------------------------------------

  /** The nodes of the fetched rows, not linked yet. */
  ghost predicate Fetched(h: Heap, root: Ptr, index: Index, disk: map<Id, Row>, fetched: set<Id>, next: Ptr) {
    && Indexed(h, index)
    && root in h && h[root].id == ROOT
    && index.Keys == fetched + {ROOT}
    && (forall p {:trigger h[p].parent} :: p in h ==> h[p].parent == None)
    && (forall p :: p in h ==> p < next)
    && (forall p {:trigger h[p].children} :: p in h ==> h[p].children == [])
    && (forall p {:trigger h[p].typ} :: p in h && h[p].id in fetched && h[p].id in disk ==>
       Carries(h[p], disk[h[p].id]))
  }

  /** The node has the type and the values of the row. */
  predicate Carries(node: Node, row: Row) {
    node.typ == row.typ && node.reported == row.reported && node.desired == row.desired
  }

  lemma FetchRoot(h: Heap, root: Ptr, index: Index, disk: map<Id, Row>, fetched: set<Id>, next: Ptr)
    requires Fetched(h, root, index, disk, fetched, next) && ROOT in disk && disk[ROOT].typ == h[root].typ
    ensures var g := h[root := h[root].(reported := disk[ROOT].reported, desired := disk[ROOT].desired)];
            Fetched(g, root, index[ROOT := root], disk, fetched + {ROOT}, next)
  {
    var g := h[root := h[root].(reported := disk[ROOT].reported, desired := disk[ROOT].desired)];
    assert index[h[root].id] == root;
    assert index[ROOT := root] == index;
    assert forall p :: p in g ==> g[p].id == h[p].id && g[p].parent == h[p].parent && g[p].children == h[p].children;
    assert Indexed(g, index);
    forall p {:trigger g[p].typ} | p in g && g[p].id in fetched + {ROOT} && g[p].id in disk
      ensures Carries(g[p], disk[g[p].id])
    {
      if p != root { assert h[p].typ == g[p].typ; assert index[h[p].id] == p; }
    }
  }

  lemma FetchNode(h: Heap, root: Ptr, index: Index, disk: map<Id, Row>, fetched: set<Id>, next: Ptr, id: Id)
    requires Fetched(h, root, index, disk, fetched, next) && id in disk && id != ROOT && id !in fetched
    ensures var g := h[next := Node(id, disk[id].typ, None, [], disk[id].reported, disk[id].desired)];
            Fetched(g, root, index[id := next], disk, fetched + {id}, next + 1)
  {
    var node := Node(id, disk[id].typ, None, [], disk[id].reported, disk[id].desired);
    var g, ix := h[next := node], index[id := next];
    assert next !in h && id !in index;
    assert Indexed(g, ix) by {
      forall p {:trigger g[p].id} | p in g ensures g[p].id in ix && ix[g[p].id] == p {
        if p != next { assert index[h[p].id] == p; }
      }
      forall x {:trigger ix[x]} | x in ix ensures ix[x] in g && g[ix[x]].id == x {
        if x != id { assert index[x] in h; }
      }
    }
    forall p {:trigger g[p].parent} | p in g ensures g[p].parent == None {
      if p != next { assert h[p].parent == None; }
    }
    forall p {:trigger g[p].typ} | p in g && g[p].id in fetched + {id} && g[p].id in disk
      ensures Carries(g[p], disk[g[p].id])
    {
      if p != next { assert h[p].typ == g[p].typ; assert index[h[p].id] == p; }
    }
  }

  // -- The links --------------------------------------------------------------------------

  /** The parent pointer of a node once the links of `done` are made. */
  ghost function LinkOf(index: Index, disk: map<Id, Row>, done: set<Id>, id: Id): Option<Ptr> {
    if id in done && id != ROOT && id in disk && disk[id].parent in index then Some(index[disk[id].parent]) else None
  }

  ghost predicate LinksUp(h: Heap, index: Index, disk: map<Id, Row>, done: set<Id>) {
    && (forall p {:trigger h[p].parent} :: p in h ==> h[p].parent == LinkOf(index, disk, done, h[p].id))
    && (forall p {:trigger h[p].parent} :: p in h && h[p].parent.Some? ==>
          h[p].parent.value in h && p in h[h[p].parent.value].children)
  }

  ghost predicate LinksDown(h: Heap) {
    forall p, i {:trigger h[p].children[i]} :: p in h && 0 <= i < |h[p].children| ==>
      h[p].children[i] in h && h[h[p].children[i]].parent == Some(p)
  }

  ghost predicate AllCarry(h: Heap, disk: map<Id, Row>) {
    forall p {:trigger h[p].typ} :: p in h ==> h[p].id in disk && Carries(h[p], disk[h[p].id])
  }

  ghost predicate Linked(h: Heap, root: Ptr, index: Index, disk: map<Id, Row>, done: set<Id>) {
    && Indexed(h, index) && root in h && h[root].id == ROOT && index.Keys == disk.Keys
    && AllCarry(h, disk) && LinksUp(h, index, disk, done) && LinksDown(h) && NoTwins(h)
  }

  lemma FetchedIsUnlinked(h: Heap, root: Ptr, index: Index, disk: map<Id, Row>, next: Ptr)
    requires Fetched(h, root, index, disk, disk.Keys, next) && ROOT in disk
    ensures Linked(h, root, index, disk, {})
  {
    assert forall p :: p in h ==> h[p].id in index;
  }

  /** The heap after the link of child `c` to parent `p`. */
  function WithLink(h: Heap, p: Ptr, c: Ptr): Heap
    requires p in h && c in h
  {
    var g := h[p := h[p].(children := h[p].children + [c])];
    g[c := g[c].(parent := Some(p))]
  }

  lemma LinkUpStep(h: Heap, index: Index, disk: map<Id, Row>, done: set<Id>, id: Id)
    requires Indexed(h, index) && index.Keys == disk.Keys && LinksUp(h, index, disk, done) && LinksDown(h)
    requires id in disk && id != ROOT && id !in done && disk[id].parent in disk
    ensures LinksUp(WithLink(h, index[disk[id].parent], index[id]), index, disk, done + {id})
  {
    var p, c := index[disk[id].parent], index[id];
    var g := WithLink(h, p, c);
    assert h[c].id == id && g[p].children[|h[p].children|] == c;
    forall q {:trigger g[q].parent} | q in g ensures g[q].parent == LinkOf(index, disk, done + {id}, g[q].id) {
      if q != c { assert g[q].parent == h[q].parent; assert index[h[q].id] == q; }
    }
    forall q {:trigger g[q].parent} | q in g && g[q].parent.Some?
      ensures g[q].parent.value in g && q in g[g[q].parent.value].children
    {
      if q != c { assert g[q].parent == h[q].parent; }
    }
  }

  lemma LinkDownStep(h: Heap, p: Ptr, c: Ptr)
    requires LinksDown(h) && NoTwins(h) && p in h && c in h && h[c].parent.None?
    ensures LinksDown(WithLink(h, p, c)) && NoTwins(WithLink(h, p, c))
  {
    var g := WithLink(h, p, c);
    forall q, i {:trigger g[q].children[i]} | q in g && 0 <= i < |g[q].children|
      ensures g[q].children[i] in g && g[g[q].children[i]].parent == Some(q)
    {
      if i < |h[q].children| { assert g[q].children[i] == h[q].children[i]; }
    }
    forall q, i, j | q in g && 0 <= i < j < |g[q].children| ensures g[q].children[i] != g[q].children[j] {
      assert g[q].children[i] == h[q].children[i];
      if j < |h[q].children| { assert g[q].children[j] == h[q].children[j]; }
    }
  }

  lemma LinkStep(h: Heap, root: Ptr, index: Index, disk: map<Id, Row>, done: set<Id>, id: Id)
    requires Linked(h, root, index, disk, done)
    requires id in disk && id != ROOT && id !in done && disk[id].parent in disk
    ensures Linked(WithLink(h, index[disk[id].parent], index[id]), root, index, disk, done + {id})
  {
    var p, c := index[disk[id].parent], index[id];
    var g := WithLink(h, p, c);
    LinkUpStep(h, index, disk, done, id);
    assert h[c].parent == LinkOf(index, disk, done, id) by { assert h[c].id == id; }
    LinkDownStep(h, p, c);
    LinkKeeps(h, p, c, index, disk);
  }

  lemma LinkKeeps(h: Heap, p: Ptr, c: Ptr, index: Index, disk: map<Id, Row>)
    requires Indexed(h, index) && AllCarry(h, disk) && p in h && c in h
    ensures Indexed(WithLink(h, p, c), index) && AllCarry(WithLink(h, p, c), disk)
  {
    var g := WithLink(h, p, c);
    forall q {:trigger g[q].id} | q in g ensures g[q].id == h[q].id && Carries(g[q], disk[g[q].id]) {
      assert h[q].typ == g[q].typ;
    }
    forall q {:trigger g[q].id} | q in g ensures g[q].id in index && index[g[q].id] == q { assert h[q].id == g[q].id; }
  }

  /** The root row, and a row whose parent has no row, is not linked. */
  lemma NoParentRow(h: Heap, root: Ptr, index: Index, disk: map<Id, Row>, done: set<Id>, id: Id)
    requires Linked(h, root, index, disk, done) && id in disk && (id == ROOT || disk[id].parent !in disk)
    ensures Linked(h, root, index, disk, done + {id})
  {
    assert forall x :: LinkOf(index, disk, done + {id}, x) == LinkOf(index, disk, done, x);
  }

  /** If the linked nodes form a tree, so do the rows. */
  lemma LinkedTree(h: Heap, root: Ptr, index: Index, disk: map<Id, Row>, lev: Levels, n: nat)
    requires Linked(h, root, index, disk, disk.Keys) && Rooted(disk) && IsTree(h, root, lev, n)
    ensures OneTree(disk)
  {
    hide NoTwins, LinkedDown, LinksDown, AllCarry;
    var rank := RanksOf(h, lev, index);
    forall id {:trigger disk[id]} | id in disk && id != ROOT
      ensures disk[id].parent in disk && rank[id] == rank[disk[id].parent] + 1
    {
      var p := index[id];
      assert h[p].id == id && index[h[root].id] == root;
      ParentLevel(h, root, lev, n, p);
      assert h[p].parent == LinkOf(index, disk, disk.Keys, id);
    }
    assert forall id :: id in disk ==> index[id] in h;
    assert TreeOnDisk(disk, rank, n);
  }

  /** The root node has the root row. */
  lemma RootRow(h: Heap, root: Ptr, index: Index, disk: map<Id, Row>)
    requires Linked(h, root, index, disk, disk.Keys) && ROOT in disk && disk[ROOT].parent == INVALID
    ensures RowOf(h, h[root]) == disk[ROOT]
  {
    hide NoTwins, LinksDown;
    assert h[root].parent == LinkOf(index, disk, disk.Keys, ROOT);
    assert h[root].typ == disk[ROOT].typ;
  }

  ghost function LevelsOf(h: Heap, rank: Ranks): Levels {
    map p | p in h && h[p].id in rank :: rank[h[p].id]
  }

  /** Once every link is made the heap is a tree that holds exactly the rows. */
  lemma AllLinked(h: Heap, root: Ptr, index: Index, disk: map<Id, Row>, rank: Ranks, n: nat)
    requires Linked(h, root, index, disk, disk.Keys) && TreeOnDisk(disk, rank, n)
    ensures IsTree(h, root, LevelsOf(h, rank), n) && Rows(h, index) == disk
  {
    hide NoTwins, Carries;
    AllLinkedUp(h, root, index, disk, rank, n);
    AllLinkedDown(h, root, index, disk, rank, n);
    AllLinkedRows(h, root, index, disk, rank, n);
  }

  lemma LoadedShape(h: Heap, root: Ptr, index: Index, disk: map<Id, Row>, rank: Ranks, n: nat, next: Ptr)
    requires Linked(h, root, index, disk, disk.Keys) && TreeOnDisk(disk, rank, n) && forall p :: p in h ==> p < next
    ensures WellShaped(h, root, LevelsOf(h, rank), n, index, next) && Rows(h, index) == disk
  {
    hide NoTwins, AllCarry, LinksUp, LinksDown, IsTree;
    AllLinked(h, root, index, disk, rank, n);
  }

  lemma AllLinkedUp(h: Heap, root: Ptr, index: Index, disk: map<Id, Row>, rank: Ranks, n: nat)
    requires Linked(h, root, index, disk, disk.Keys) && TreeOnDisk(disk, rank, n)
    ensures h[root].parent.None? && LinkedUp(h, root) && Levelled(h, root, LevelsOf(h, rank), n)
  {
    hide NoTwins, Carries, LinksDown;
    var lev := LevelsOf(h, rank);
    forall p {:trigger h[p].parent} | p in h && p != root
      ensures h[p].parent.Some? && h[p].parent.value in h && p in h[h[p].parent.value].children && lev[p] > 0
    {
      var id := h[p].id;
      assert index[id] == p && index[h[root].id] == root;
      assert disk[id].parent in disk;
    }
    forall p | p in h ensures p in lev && lev[p] <= n { assert h[p].id in index; assert rank[h[p].id] <= n; }
  }

  lemma AllLinkedDown(h: Heap, root: Ptr, index: Index, disk: map<Id, Row>, rank: Ranks, n: nat)
    requires Linked(h, root, index, disk, disk.Keys) && TreeOnDisk(disk, rank, n)
    ensures LinkedDown(h, LevelsOf(h, rank))
  {
    hide NoTwins, Carries;
    var lev := LevelsOf(h, rank);
    forall p, i {:trigger h[p].children[i]} | p in h && 0 <= i < |h[p].children|
      ensures var c := h[p].children[i];
              c in h && c in lev && p in lev && h[c].parent == Some(p) &&
              lev[c] == lev[p] + 1
    {
      var c := h[p].children[i];
      var id := h[c].id;
      assert h[c].parent == LinkOf(index, disk, disk.Keys, id);
      assert index[disk[id].parent] == p && h[p].id == disk[id].parent;
    }
  }

  lemma AllLinkedRows(h: Heap, root: Ptr, index: Index, disk: map<Id, Row>, rank: Ranks, n: nat)
    requires Linked(h, root, index, disk, disk.Keys) && TreeOnDisk(disk, rank, n)
    ensures Rows(h, index) == disk
  {
    hide NoTwins, LinksDown;
    forall id | id in index ensures RowOf(h, h[index[id]]) == disk[id] {
      var p := index[id];
      assert h[p].id == id && Carries(h[p], disk[id]) by { assert h[p].typ == h[p].typ; }
      assert h[p].parent == LinkOf(index, disk, disk.Keys, id);
      if id != ROOT { assert h[index[disk[id].parent]].id == disk[id].parent; }
    }
    SameRows(h, index, disk);
  }
}
