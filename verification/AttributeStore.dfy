/** The attribute store: a tree of node objects, a redundant map from ids to nodes, and deferred
    writes to a datastore. Datastore operations succeed. Callbacks are recorded as events. */
module AttributeStore {
  import opened Common
  import opened StoreLedger
  import opened NodeHeap
  import opened StoreRows
  import opened StoreLoad

  const INVALID_TYPE: nat := 0
  const ROOT_TYPE: nat := 1

  datatype Status = Ok | Fail | InProgress

  /** The callbacks that the store invokes. */
  datatype Event = Created(id: Id) | Updated(id: Id, state: ValueState) | Touched(id: Id) | Deleted(id: Id)

  ghost function IdOf(h: Heap, p: Ptr): Id {
    if p in h then h[p].id else INVALID
  }

  ghost function IdsOf(h: Heap, s: seq<Ptr>): (r: seq<Id>)
    ensures |r| == |s| && forall i :: 0 <= i < |s| ==> r[i] == IdOf(h, s[i])
  {
    if s == [] then [] else IdsOf(h, s[..|s| - 1]) + [IdOf(h, s[|s| - 1])]
  }

  ghost function DeletedEvents(ids: seq<Id>): (r: seq<Event>)
    ensures |r| == |ids| && forall i :: 0 <= i < |ids| ==> r[i] == Deleted(ids[i])
  {
    if ids == [] then [] else DeletedEvents(ids[..|ids| - 1]) + [Deleted(ids[|ids| - 1])]
  }

  function ValueOf(row: Row, state: ValueState): seq<Byte> {
    if state.Desired? then row.desired else row.reported
  }

  function WithValue(row: Row, state: ValueState, value: seq<Byte>): Row {
    if state.Desired? then row.(desired := value) else row.(reported := value)
  }

  /** What a deletion changes. */
  datatype Snap = Snap(heap: Heap, index: Index, view: Ledger, events: seq<Event>)

  /** The deletion of some nodes, in this order: they and the links to them leave the tree, their
      ids leave the index, and each has one event and one entry in the bookkeeping. */
  ghost function AfterDelete(s: Snap, victims: seq<Ptr>): Snap {
    var ids := IdsOf(s.heap, victims);
    Snap(Removed(s.heap, SetOf(victims)), s.index - IdSet(ids), DeleteAll(s.view, ids), s.events + DeletedEvents(ids))
  }

  ghost function IdSet(ids: seq<Id>): set<Id> { set id | id in ids }

  lemma {:induction false} DeletedEventsConcat(a: seq<Id>, b: seq<Id>)
    ensures DeletedEvents(a + b) == DeletedEvents(a) + DeletedEvents(b)
  {
  }

  lemma IdsOfConcat(h: Heap, gone: set<Ptr>, a: seq<Ptr>, b: seq<Ptr>)
    requires forall q :: q in b ==> q in Removed(h, gone)
    ensures IdsOf(h, a + b) == IdsOf(h, a) + IdsOf(Removed(h, gone), b)
  {
    hide Keep;
    forall q | q in b ensures q in h && Removed(h, gone)[q].id == h[q].id { assert q in Removed(h, gone); }
    var l, r := IdsOf(h, a + b), IdsOf(h, a) + IdsOf(Removed(h, gone), b);
    assert |l| == |r|;
    assert forall i :: 0 <= i < |l| ==> l[i] == r[i];
  }

  lemma SetOfConcat(a: seq<Ptr>, b: seq<Ptr>)
    ensures SetOf(a + b) == SetOf(a) + SetOf(b)
  {
  }

  lemma AfterDeleteConcat(s: Snap, a: seq<Ptr>, b: seq<Ptr>)
    requires forall q :: q in b ==> q in AfterDelete(s, a).heap
    ensures AfterDelete(AfterDelete(s, a), b) == AfterDelete(s, a + b)
  {
    hide Removed, DeleteAll, DeletedEvents, IdsOf, SetOf;
    var gone := SetOf(a);
    IdsOfConcat(s.heap, gone, a, b);
    var x, y := IdsOf(s.heap, a), IdsOf(Removed(s.heap, gone), b);
    RemovedTwice(s.heap, gone, SetOf(b));
    SetOfConcat(a, b);
    DeleteAllConcat(s.view, x, y);
    DeletedEventsConcat(x, y);
    assert IdSet(x + y) == IdSet(x) + IdSet(y);
    assert s.index - (IdSet(x) + IdSet(y)) == s.index - IdSet(x) - IdSet(y);
  }

  lemma AfterDeleteOne(s: Snap, p: Ptr)
    requires p in s.heap
    ensures AfterDelete(s, [p]) ==
            Snap(Removed(s.heap, {p}), s.index - {s.heap[p].id}, Delete(s.view, s.heap[p].id),
                s.events + [Deleted(s.heap[p].id)])
  {
    hide Removed, Delete;
    var id := s.heap[p].id;
    assert IdsOf(s.heap, [p]) == [id];
    assert SetOf([p]) == {p} && IdSet([id]) == {id} && DeletedEvents([id]) == [Deleted(id)];
    assert [id][..0] == [];
    assert DeleteAll(s.view, []) == s.view;
  }

  /** The root loses its values, and its row is stored at once. */
  ghost function Wiped(s: Snap, root: Ptr): Snap {
    if root in s.heap && ROOT in s.view.tree then
      s.(heap := s.heap[root := s.heap[root].(reported := [], desired := [])],
         view := Write(s.view, ROOT, s.view.tree[ROOT].(reported := [], desired := [])))
    else s
  }

  function Height(lev: Levels, n: nat, p: Ptr): nat {
    if p in lev && lev[p] <= n then n - lev[p] else 0
  }

  /** The proper descendants of `p` in post-order. */
  function Below(h: Heap, lev: Levels, n: nat, p: Ptr): seq<Ptr> {
    if p in h then Kids(h, h[p].children, |h[p].children|, Height(lev, n, p)) else []
  }

  lemma BelowIsSubtree(h: Heap, root: Ptr, lev: Levels, n: nat, p: Ptr)
    requires IsTree(h, root, lev, n) && p in h
    ensures forall q :: q in Below(h, lev, n, p) <==> Under(h, lev, p, q) && q != p
    ensures Distinct(Below(h, lev, n, p) + [p])
  {
    hide LinkedDown, LinkedUp, NoTwins, Under, Kids;
    var below := Below(h, lev, n, p);
    assert PostOrder(h, p, n + 1 - lev[p]) == below + [p];
    PostOrderDistinct(h, root, lev, n, p, n + 1 - lev[p]);
    forall q ensures q in below <==> Under(h, lev, p, q) && q != p {
      PostOrderIsSubtree(h, root, lev, n, p, n + 1 - lev[p], q);
      if q in below { KidsBelow(h, root, lev, n, p, |h[p].children|, n - lev[p], q); }
    }
  }

  /** While the first `k` children of `p` are gone, the next one still has the subtree it had. */
  lemma NextChild(h: Heap, root: Ptr, lev: Levels, n: nat, p: Ptr, k: nat)
    requires IsTree(h, root, lev, n) && p in h && k < |h[p].children|
    ensures var c := h[p].children[k]; c in h && c in lev && p in lev && lev[c] == lev[p] + 1 <= n && c != root
    ensures p in lev && lev[p] < n
    ensures h[p].children[k] in Removed(h, SetOf(Kids(h, h[p].children, k, n - lev[p])))
  {
    hide LinkedUp, NoTwins, Kids;
    KidsGone(h, root, lev, n, p, k);
    KidsRemovable(h, root, lev, n, p, k);
    var r := Removed(h, SetOf(Kids(h, h[p].children, k, n - lev[p])));
    assert r[p].children == h[p].children[k..];
    assert r[p].children[0] == h[p].children[k];
  }

  lemma NextChildBelow(h: Heap, root: Ptr, lev: Levels, n: nat, p: Ptr, k: nat)
    requires IsTree(h, root, lev, n) && p in h && k < |h[p].children| && p in lev && lev[p] < n
    requires h[p].children[k] in lev && lev[h[p].children[k]] == lev[p] + 1
    requires h[p].children[k] in Removed(h, SetOf(Kids(h, h[p].children, k, n - lev[p])))
    ensures var c, r := h[p].children[k], Removed(h, SetOf(Kids(h, h[p].children, k, n - lev[p])));
            Below(r, lev, n, c) + [c] == PostOrder(h, c, n - lev[p]) &&
            forall q :: q in Below(r, lev, n, c) + [c] ==> q in r
  {
    hide LinkedDown, LinkedUp, NoTwins, Kids, Levelled, Under, Removed, Distinct;
    var c, r := h[p].children[k], Removed(h, SetOf(Kids(h, h[p].children, k, n - lev[p])));
    KidsRemovable(h, root, lev, n, p, k);
    NextKidIntact(h, root, lev, n, p, k);
    BelowIsSubtree(r, root, lev, n, c);
    var all := Below(r, lev, n, c) + [c];
    forall q | q in all ensures q in r { UnderInHeap(r, lev, c, q); }
  }

  /** One iteration of the deletion loop. */
  lemma NextVictims(s: Snap, root: Ptr, lev: Levels, n: nat, p: Ptr, k: nat)
    requires IsTree(s.heap, root, lev, n) && p in s.heap && k < |s.heap[p].children|
    ensures p in lev && lev[p] < n
    ensures var cs, f := s.heap[p].children, n - lev[p];
            var t := AfterDelete(s, Kids(s.heap, cs, k, f));
            cs[k] in t.heap && cs[k] in lev && lev[cs[k]] == lev[p] + 1 && cs[k] != root &&
            Below(t.heap, lev, n, cs[k]) + [cs[k]] == PostOrder(s.heap, cs[k], f) &&
            (forall q :: q in Below(t.heap, lev, n, cs[k]) ==> q in t.heap) &&
            AfterDelete(t, Below(t.heap, lev, n, cs[k]) + [cs[k]]) == AfterDelete(s, Kids(s.heap, cs, k + 1, f))
  {
    hide IsTree, Removed, Below, IdsOf, DeletedEvents, DeleteAll, PostOrder, Under;
    var h := s.heap;
    NextChild(h, root, lev, n, p, k);
    NextChildBelow(h, root, lev, n, p, k);
    var cs, f := h[p].children, n - lev[p];
    AfterDeleteConcat(s, Kids(h, cs, k, f), PostOrder(h, cs[k], f));
  }

  /** None of these nodes is being deleted already. */
  ghost predicate Clear(victims: seq<Ptr>, marked: set<Ptr>) {
    forall q :: q in victims ==> q !in marked
  }

  lemma ClearNone(marked: set<Ptr>)
    ensures Clear([], marked)
  {
  }

  lemma ClearOne(p: Ptr, marked: set<Ptr>)
    ensures Clear([p], marked) <==> p !in marked
  {
    assert p in [p];
  }

  /** A node is not below itself. */
  lemma BelowOthers(h: Heap, root: Ptr, lev: Levels, n: nat, p: Ptr)
    requires IsTree(h, root, lev, n) && p in h
    ensures p !in Below(h, lev, n, p)
  {
    BelowIsSubtree(h, root, lev, n, p);
  }

  lemma ClearConcat(a: seq<Ptr>, b: seq<Ptr>, marked: set<Ptr>)
    ensures Clear(a + b, marked) <==> Clear(a, marked) && Clear(b, marked)
  {
    assert forall q :: q in a + b <==> q in a || q in b;
  }

  /** A deletion that stopped on its way through these nodes. */
  ghost predicate Stopped(s: Snap, victims: seq<Ptr>, t: Snap) {
    exists k :: 0 <= k <= |victims| && t == AfterDelete(s, victims[..k])
  }

  lemma StoppedAtOnce(s: Snap, victims: seq<Ptr>)
    ensures Stopped(s, victims, s)
  {
    hide AfterDelete;
    AfterDeleteNothing(s);
    assert victims[..0] == [];
  }

  lemma {:induction false} KidsPrefix(h: Heap, cs: seq<Ptr>, k: nat, m: nat, f: nat)
    requires k <= m <= |cs|
    ensures Kids(h, cs, k, f) <= Kids(h, cs, m, f)
    decreases m
  {
    if k < m { KidsPrefix(h, cs, k, m - 1, f); }
  }

  /** Stopping at a child of `p` stops at `p`. */
  lemma StoppedAbove(s: Snap, root: Ptr, lev: Levels, n: nat, p: Ptr, k: nat, marked: set<Ptr>, u: Snap)
    requires IsTree(s.heap, root, lev, n) && p in s.heap && k < |s.heap[p].children| && p in lev && lev[p] < n
    requires var cs, f := s.heap[p].children, n - lev[p];
             var t := AfterDelete(s, Kids(s.heap, cs, k, f));
             Below(t.heap, lev, n, cs[k]) + [cs[k]] == PostOrder(s.heap, cs[k], f) &&
             (forall q :: q in Below(t.heap, lev, n, cs[k]) ==> q in t.heap) &&
             !Clear(PostOrder(s.heap, cs[k], f), marked) && Stopped(t, Below(t.heap, lev, n, cs[k]), u)
    ensures Stopped(s, Below(s.heap, lev, n, p), u) && !Clear(Below(s.heap, lev, n, p), marked)
  {
    hide IsTree, AfterDelete, PostOrder, Kids;
    var cs, f := s.heap[p].children, n - lev[p];
    var kids := Kids(s.heap, cs, k, f);
    var t := AfterDelete(s, kids);
    var below := Below(t.heap, lev, n, cs[k]);
    var j :| 0 <= j <= |below| && u == AfterDelete(t, below[..j]);
    AfterDeleteConcat(s, kids, below[..j]);
    NextKids(s.heap, cs, k, f);
    KidsPrefix(s.heap, cs, k + 1, |cs|, f);
    var all := Below(s.heap, lev, n, p);
    assert kids + (below + [cs[k]]) <= all;
    assert all[..|kids| + j] == kids + below[..j];
    var q :| q in below + [cs[k]] && q in marked;
    var i :| 0 <= i < |below + [cs[k]]| && (below + [cs[k]])[i] == q;
    assert all[|kids| + i] == q;
  }

  lemma NextKids(h: Heap, cs: seq<Ptr>, k: nat, f: nat)
    requires k < |cs|
    ensures Kids(h, cs, k + 1, f) == Kids(h, cs, k, f) + PostOrder(h, cs[k], f)
  {
  }

  lemma RemainingKids(s: Snap, root: Ptr, lev: Levels, n: nat, p: Ptr, k: nat)
    requires IsTree(s.heap, root, lev, n) && p in s.heap && k <= |s.heap[p].children|
    ensures p in lev && lev[p] <= n
    ensures var cs := s.heap[p].children;
            var h := AfterDelete(s, Kids(s.heap, cs, k, n - lev[p])).heap;
            p in h && h[p].children == cs[k..]
  {
    hide LinkedDown, LinkedUp, NoTwins, Kids;
    KidsGone(s.heap, root, lev, n, p, k);
  }

  lemma NoneOf(h: Heap, cs: seq<Ptr>, f: nat)
    ensures Kids(h, cs, 0, f) == []
  {
  }

  lemma AfterDeleteNothing(s: Snap)
    ensures AfterDelete(s, []) == s
  {
    RemovedNothing(s.heap);
    assert SetOf([]) == {} && IdSet([]) == {} && DeletedEvents([]) == [] && IdsOf(s.heap, []) == [];
    assert DeleteAll(s.view, []) == s.view;
  }

  ghost function IdsIn(h: Heap, s: seq<Ptr>): set<Id> {
    set q | q in s :: IdOf(h, q)
  }

  lemma IdsInOne(h: Heap, p: Ptr)
    requires p in h
    ensures IdsIn(h, [] + [p]) == {h[p].id}
  {
    var s := [] + [p];
    assert s[0] == p && forall q :: q in s ==> q == p;
    assert IdOf(h, s[0]) in IdsIn(h, s);
  }

  lemma NextPart(h: Heap, lev: Levels, n: nat, p: Ptr, i: nat)
    requires LinkedDown(h, lev) && p in h && i < |h[p].children| && p in lev && lev[p] < n
    ensures var cs, f := h[p].children, n - lev[p];
            IdsIn(h, Kids(h, cs, i, f) + [p]) + IdsIn(h, Below(h, lev, n, cs[i]) + [cs[i]]) ==
                IdsIn(h, Kids(h, cs, i + 1, f) + [p])
  {
    var cs, f := h[p].children, n - lev[p];
    var a, b := Kids(h, cs, i, f), Below(h, lev, n, cs[i]) + [cs[i]];
    assert b == PostOrder(h, cs[i], f);
    forall q ensures q in a + [p] || q in b <==> q in (a + b) + [p] { }
  }

  /** A traversal from the root meets every node. */
  lemma WholeTree(h: Heap, root: Ptr, lev: Levels, n: nat, index: Index)
    requires IsTree(h, root, lev, n) && Indexed(h, index)
    ensures root in h && IdsIn(h, Below(h, lev, n, root) + [root]) == index.Keys == Rows(h, index).Keys
  {
    hide LinkedDown, LinkedUp, NoTwins, Below, Under;
    BelowIsSubtree(h, root, lev, n, root);
    var all := Below(h, lev, n, root) + [root];
    forall q ensures q in all <==> q in h {
      if q in h { UnderRoot(h, root, lev, n, q); }
      if q in all { UnderInHeap(h, lev, root, q); }
    }
    forall id | id in index ensures id in IdsIn(h, all) {
      assert index[id] in all && IdOf(h, index[id]) == id;
    }
  }

  lemma UnderInHeap(h: Heap, lev: Levels, p: Ptr, q: Ptr)
    requires (q == p && p in h) || Under(h, lev, p, q)
    ensures q in h
  {
  }

  // -- Loading ----------------------------------------------------------------------------

  /** The persistence state at the moment a load starts to read: the old tree is deleted. */
  ghost function AtLoad(s: Snap, root: Ptr, lev: Levels, n: nat): Ledger {
    Wiped(AfterDelete(s, Below(s.heap, lev, n, root)), root).view
  }

  ghost function ChildrenOf(links: seq<(Id, Id)>): set<Id> {
    set l | l in links :: l.1
  }

  /** The parent and child ids of the rows `fetched`, each once. */
  ghost predicate LinksOf(disk: map<Id, Row>, fetched: set<Id>, links: seq<(Id, Id)>) {
    && ChildrenOf(links) == fetched
    && (forall i :: 0 <= i < |links| ==> links[i].1 in disk && links[i].0 == disk[links[i].1].parent)
    && forall i, j :: 0 <= i < j < |links| ==> links[i].1 != links[j].1
  }

  lemma NoLinks(disk: map<Id, Row>)
    ensures LinksOf(disk, {}, [])
  {
  }

  lemma MoreLinks(disk: map<Id, Row>, fetched: set<Id>, links: seq<(Id, Id)>, id: Id)
    requires LinksOf(disk, fetched, links) && id in disk && id !in fetched
    ensures LinksOf(disk, fetched + {id}, links + [(disk[id].parent, id)])
  {
    var more := links + [(disk[id].parent, id)];
    forall i | 0 <= i < |links| ensures more[i].1 in fetched { assert links[i] in links; }
    forall x ensures x in ChildrenOf(more) <==> x in fetched + {id} {
      if x in ChildrenOf(links) {
        var l :| l in links && l.1 == x;
        assert l in more;
      }
      if x == id { assert more[|links|] in more; }
    }
  }

  lemma LinkAt(disk: map<Id, Row>, links: seq<(Id, Id)>, i: nat)
    requires LinksOf(disk, disk.Keys, links) && i < |links|
    ensures links[i].1 in disk && links[i].0 == disk[links[i].1].parent
    ensures links[i].1 !in ChildrenOf(links[..i])
    ensures ChildrenOf(links[..i + 1]) == ChildrenOf(links[..i]) + {links[i].1}
  {
    assert links[..i + 1] == links[..i] + [links[i]];
    forall x ensures x in ChildrenOf(links[..i + 1]) <==> x in ChildrenOf(links[..i]) + {links[i].1} {
      if x in ChildrenOf(links[..i]) {
        var l :| l in links[..i] && l.1 == x;
        assert l in links[..i + 1];
      }
      if x == links[i].1 { assert links[i] in links[..i + 1]; }
    }
  }

  lemma RootFetched(h: Heap, root: Ptr, index: Index, disk: map<Id, Row>, fetched: set<Id>, next: Ptr)
    requires Fetched(h, root, index, disk, fetched, next)
    ensures root in h && h[root].id == ROOT && root < next
  {
  }

  lemma NoChildren(links: seq<(Id, Id)>)
    ensures ChildrenOf(links[..0]) == {}
  {
  }

  lemma FetchedPtrs(h: Heap, root: Ptr, index: Index, disk: map<Id, Row>, next: Ptr)
    requires Fetched(h, root, index, disk, disk.Keys, next)
    ensures forall p :: p in h ==> p < next
  {
  }

  lemma RootIndexed(h: Heap, root: Ptr, lev: Levels, n: nat, index: Index, next: Ptr)
    requires WellShaped(h, root, lev, n, index, next)
    ensures ROOT in index && index[ROOT] == root
  {
    assert index[h[root].id] == root;
  }

  lemma LinkedIndex(h: Heap, root: Ptr, index: Index, disk: map<Id, Row>, done: set<Id>)
    requires Linked(h, root, index, disk, done)
    ensures index.Keys == disk.Keys
    ensures forall id :: id in index ==> index[id] in h && h[index[id]].id == id
  {
  }

  lemma LinkedRoot(h: Heap, root: Ptr, index: Index, disk: map<Id, Row>)
    requires Linked(h, root, index, disk, disk.Keys)
    ensures root in h && ROOT in disk
  {
    assert h[root].id in index;
  }

  lemma RootedHasRoot(disk: map<Id, Row>)
    requires Rooted(disk)
    ensures ROOT in disk
  {
  }

  /** A deletion writes no row. */
  lemma {:induction false} DeleteAllDisk(l: Ledger, ids: seq<Id>)
    ensures DeleteAll(l, ids).disk.Keys <= l.disk.Keys
    decreases |ids|
  {
    if ids != [] { DeleteAllDisk(l, ids[..|ids| - 1]); }
  }

  /** Below the root is everything else. */
  lemma RootKept(h: Heap, root: Ptr, lev: Levels, n: nat)
    requires IsTree(h, root, lev, n)
    ensures SetOf(Below(h, lev, n, root)) == h.Keys - {root}
    ensures Removed(h, SetOf(Below(h, lev, n, root))) == map[root := h[root].(children := [])]
  {
    hide LinkedDown, LinkedUp, NoTwins, Under, Kids, Keep;
    var below := Below(h, lev, n, root);
    BelowIsSubtree(h, root, lev, n, root);
    forall q ensures q in SetOf(below) <==> q in h.Keys - {root} {
      if q in h { UnderRoot(h, root, lev, n, q); }
      if q in below { UnderInHeap(h, lev, root, q); }
    }
    KidsGone(h, root, lev, n, root, |h[root].children|);
  }

  lemma IdsKept(h: Heap, root: Ptr, index: Index, below: seq<Ptr>)
    requires Indexed(h, index) && root in h && h[root].id == ROOT && SetOf(below) == h.Keys - {root}
    ensures IdSet(IdsOf(h, below)) == index.Keys - {ROOT}
    ensures index - IdSet(IdsOf(h, below)) == map[ROOT := root]
  {
    var ids := IdsOf(h, below);
    assert index[h[root].id] == root;
    forall id ensures id in IdSet(ids) <==> id in index.Keys - {ROOT} {
      if id in ids {
        var i :| 0 <= i < |ids| && ids[i] == id;
        assert below[i] in SetOf(below) && index[h[below[i]].id] == below[i];
      }
      if id in index && id != ROOT {
        assert h[index[id]].id == id && index[id] in SetOf(below);
        var i :| 0 <= i < |below| && below[i] == index[id];
        assert ids[i] == id;
      }
    }
  }

  /** Deleting the root leaves the root, without values. */
  lemma RootAlone(s: Snap, root: Ptr, lev: Levels, n: nat, next: Ptr)
    requires WellShaped(s.heap, root, lev, n, s.index, next) && s.view.tree == Rows(s.heap, s.index)
    ensures var t := Wiped(AfterDelete(s, Below(s.heap, lev, n, root)), root);
            Fetched(t.heap, root, t.index, t.view.disk, {}, next) &&
            (INVALID !in s.view.disk ==> Rooted(t.view.disk)) && ROOT in t.view.disk &&
                t.view.disk[ROOT].typ == t.heap[root].typ
  {
    hide IsTree, Below, Removed, IdsOf, DeleteAll, SetOf, Rows;
    var below := Below(s.heap, lev, n, root);
    RootInHeap(s.heap, root, lev, n);
    RootKept(s.heap, root, lev, n);
    IdsKept(s.heap, root, s.index, below);
    var t := AfterDelete(s, below);
    DeleteAllFrame(s.view, IdsOf(s.heap, below));
    assert ROOT in s.index && ROOT !in IdSet(IdsOf(s.heap, below));
    RowAt(s.heap, s.index, ROOT);
    DeleteAllDisk(s.view, IdsOf(s.heap, below));
    assert ROOT in t.view.tree && t.view.tree[ROOT] == s.view.tree[ROOT];
  }

  lemma IdsDistinct(h: Heap, index: Index, s: seq<Ptr>)
    requires Indexed(h, index) && Distinct(s) && forall q :: q in s ==> q in h
    ensures forall i, j :: 0 <= i < j < |s| ==> IdsOf(h, s)[i] != IdsOf(h, s)[j]
  {
    var ids := IdsOf(h, s);
    forall i, j | 0 <= i < j < |s| ensures ids[i] != ids[j] {
      assert index[h[s[i]].id] == s[i] && index[h[s[j]].id] == s[j];
    }
  }

  /** What the datastore holds when a load starts to read. */
  lemma DiskAtLoad(s: Snap, root: Ptr, lev: Levels, n: nat, next: Ptr)
    requires WellShaped(s.heap, root, lev, n, s.index, next) && s.view.tree == Rows(s.heap, s.index)
    requires Steady(s.view)
    ensures var l := AtLoad(s, root, lev, n);
            var wiped := s.view.tree[ROOT].(reported := [], desired := []);
            l.disk == (if s.view.deferred then s.view.disk else map[])[ROOT := wiped] &&
            Steady(l.(tree := l.disk, deletions := []))
  {
    hide IsTree, Below, Removed, IdsOf, DeleteAll, SetOf, Rows, Steady, Write;
    var below := Below(s.heap, lev, n, root);
    RootInHeap(s.heap, root, lev, n);
    RootIndexed(s.heap, root, lev, n, s.index, next);
    RowAt(s.heap, s.index, ROOT);
    BelowDistinct(s.heap, root, lev, n, s.index);
    RootKept(s.heap, root, lev, n);
    DeleteAllOthers(s.view, IdsOf(s.heap, below));
    var d := DeleteAll(s.view, IdsOf(s.heap, below));
    RootOnDisk(s.view);
    LoadedSteady(d, s.view.tree[ROOT].(reported := [], desired := []));
  }

  lemma RootOnDisk(l: Ledger)
    requires Steady(l)
    ensures ROOT in l.tree && ROOT in l.disk
  {
  }

  lemma BelowDistinct(h: Heap, root: Ptr, lev: Levels, n: nat, index: Index)
    requires IsTree(h, root, lev, n) && Indexed(h, index) && h[root].id == ROOT
    ensures var ids := IdsOf(h, Below(h, lev, n, root));
            (forall i, j :: 0 <= i < j < |ids| ==> ids[i] != ids[j]) &&
            (forall id :: id in ids <==> id in Rows(h, index) && id != ROOT)
  {
    hide IsTree, Below, IdsOf, Indexed, Under;
    var below := Below(h, lev, n, root);
    RootInHeap(h, root, lev, n);
    BelowIsSubtree(h, root, lev, n, root);
    RootKept(h, root, lev, n);
    forall q | q in below ensures q in h { assert q in SetOf(below); }
    forall i, j | 0 <= i < j < |below| ensures below[i] != below[j] {
      assert (below + [root])[i] == below[i] && (below + [root])[j] == below[j];
    }
    IdsDistinct(h, index, below);
    IdsKept(h, root, index, below);
    forall id ensures id in IdsOf(h, below) <==> id in Rows(h, index) && id != ROOT {
      assert id in IdSet(IdsOf(h, below)) <==> id in index.Keys - {ROOT};
    }
  }

  lemma EmptyRootTree(disk: map<Id, Row>, rank: Ranks, n: nat)
    requires TreeOnDisk(disk, rank, n)
    ensures TreeOnDisk(disk[ROOT := EmptyRoot()], rank, n)
  {
  }

  /** The values of the root do not matter for the shape. */
  lemma WipedTree(disk: map<Id, Row>, rank: Ranks, n: nat)
    requires TreeOnDisk(disk, rank, n)
    ensures var wiped := disk[ROOT].(reported := [], desired := []);
            TreeOnDisk(disk[ROOT := wiped], rank, n) && TreeOnDisk(map[ROOT := wiped], rank, n)
  {
  }

  function EmptyRoot(): Row { Row(ROOT_TYPE, INVALID, [], []) }

  /** A load into a store that has only its root finds the datastore as it is, but for the root. */
  lemma FirstLoad(s: Snap)
    requires s.heap == map[0 := Node(ROOT, ROOT_TYPE, None, [], [], [])] && s.index == map[ROOT := 0]
    requires s.view.tree == map[ROOT := EmptyRoot()]
    requires s.view.pendingSave == {} && s.view.neverSaved == {}
    ensures var l := AtLoad(s, 0, map[0 := 0], 0);
            l.disk == s.view.disk[ROOT := EmptyRoot()] && Steady(l.(tree := l.disk, deletions := []))
  {
    hide AfterDelete;
    assert Below(s.heap, map[0 := 0], 0, 0) == [];
    AfterDeleteNothing(s);
  }

  /** The calls of a client; `free` is an id that is not in use. */
  datatype ClientOp =
    | AddOp(typ: nat, parent: Id, allowed: bool, free: Id)
    | WriteOp(id: Id, state: ValueState, value: seq<Byte>, allowed: bool)
    | DeleteOp(id: Id)
    | SaveOp
    | CooldownOp(interval: nat)

  /** The nodes that a deletion takes away: the root itself stays. */
  ghost function Victims(h: Heap, root: Ptr, lev: Levels, n: nat, p: Ptr): seq<Ptr> {
    if p == root then Below(h, lev, n, root) else Below(h, lev, n, p) + [p]
  }

  /** The nodes that a deletion takes away have distinct ids, and the root is not among them. */
  lemma VictimIds(h: Heap, root: Ptr, lev: Levels, n: nat, index: Index, p: Ptr)
    requires IsTree(h, root, lev, n) && Indexed(h, index) && h[root].id == ROOT && p in h
    ensures AllDistinct(IdsOf(h, Victims(h, root, lev, n, p)))
    ensures forall id :: id in IdsOf(h, Victims(h, root, lev, n, p)) ==> id in Rows(h, index) && id != ROOT
  {
    hide LinkedDown, LinkedUp, NoTwins, Levelled, Below, Under;
    var victims := Victims(h, root, lev, n, p);
    BelowIsSubtree(h, root, lev, n, p);
    forall q | q in victims ensures q in h && q != root {
      UnderInHeap(h, lev, p, q);
      RootNotBelow(h, root, lev, n, p, q);
    }
    assert Distinct(victims) by {
      if p == root {
        var all := victims + [root];
        forall i, j | 0 <= i < j < |victims| ensures victims[i] != victims[j] { assert all[i] == victims[i] &&
            all[j] == victims[j]; }
      }
    }
    IdsDistinct(h, index, victims);
    var ids := IdsOf(h, victims);
    forall id | id in ids ensures id in Rows(h, index) && id != ROOT {
      var i :| 0 <= i < |ids| && ids[i] == id;
      var q := victims[i];
      assert q in victims;
      assert index[h[q].id] == q && index[h[root].id] == root;
    }
  }

  ghost predicate AllDistinct(ids: seq<Id>) {
    forall i, j :: 0 <= i < j < |ids| ==> ids[i] != ids[j]
  }

  lemma RootNotBelow(h: Heap, root: Ptr, lev: Levels, n: nat, p: Ptr, q: Ptr)
    requires IsTree(h, root, lev, n) && p in h && (q == p || Under(h, lev, p, q))
    ensures q == root ==> p == root
  {
    if q == root {
      UnderRoot(h, root, lev, n, p);
      UnderLevel(h, lev, root, p);
      if q != p { UnderLevel(h, lev, p, q); }
    }
  }

  lemma VictimsSteady(s: Snap, root: Ptr, lev: Levels, n: nat, next: Ptr, id: Id)
    requires WellShaped(s.heap, root, lev, n, s.index, next) && s.view.tree == Rows(s.heap, s.index) &&
             Steady(s.view) && id in s.index
    ensures var p := s.index[id];
            if id == ROOT then Steady(Wiped(AfterDelete(s, Below(s.heap, lev, n, root)), root).view)
            else Steady(AfterDelete(s, Below(s.heap, lev, n, p) + [p]).view)
  {
    hide IsTree, Below, IdsOf, DeleteAll, Removed, SetOf, Rows, Sound, Write;
    var p := s.index[id];
    RootInHeap(s.heap, root, lev, n);
    RootIndexed(s.heap, root, lev, n, s.index, next);
    RowAt(s.heap, s.index, id);
    VictimIds(s.heap, root, lev, n, s.index, p);
    var victims := Victims(s.heap, root, lev, n, p);
    var ids := IdsOf(s.heap, victims);
    assert forall i :: 0 <= i < |ids| ==> ids[i] in ids;
    DeleteAllSteady(s.view, ids);
    var t := AfterDelete(s, victims);
    if id == ROOT && root in t.heap && ROOT in t.view.tree {
      ApplySteady(t.view, DoWrite(ROOT, t.view.tree[ROOT].(reported := [], desired := [])));
    }
  }

  class Store {
    // The tree
    const root: Ptr
    var heap: Heap
    var nextPtr: Ptr
    var undergoingDeletion: set<Ptr>
    ghost var lev: Levels
    ghost var depth: nat
    // The id map and the id counter
    var index: Index
    var lastAssignedId: Id
    // Persistence
    var neverSaved: set<Id>
    var pendingSave: set<Id>
    var deletions: seq<Id>
    var disk: map<Id, Row>
    var storedLastId: Id
    var cooldown: nat
    // Callbacks
    var events: seq<Event>

    /** The heap is a tree and the id map agrees with it. */
    ghost predicate Shape()
      reads this
    {
      WellShaped(heap, root, lev, depth, index, nextPtr)
    }

    /** The store as the persistence bookkeeping sees it. */
    ghost function View(): Ledger
      requires Indexed(heap, index)
      reads this
    {
      Ledger(Rows(heap, index), neverSaved, pendingSave, deletions, disk, cooldown != 0)
    }

    /** What holds between calls. */
    ghost predicate Valid()
      reads this
    {
      Shape() && undergoingDeletion == {}
    }

    /** `attribute_store_init`: a root node, and then whatever the datastore holds. The values of
        the root are not read back. */
    constructor (disk: map<Id, Row>, cooldown: nat, lastAssignedId: Id)
      requires INVALID !in disk
      ensures this.cooldown == cooldown && this.lastAssignedId == lastAssignedId
      ensures this.disk == disk[ROOT := EmptyRoot()] && Linked(heap, root, index, this.disk, this.disk.Keys)
      ensures Valid() <==> OneTree(disk[ROOT := EmptyRoot()])
      ensures Valid() ==> Steady(View()) && View().tree == disk[ROOT := EmptyRoot()]
    {
      hide IsTree, Indexed, Rows, AtLoad, OneTree, Linked;
      OnlyRoot(ROOT_TYPE);
      root := 0;
      heap, nextPtr, undergoingDeletion := map[0 := Node(ROOT, ROOT_TYPE, None, [], [], [])], 1, {};
      lev, depth := map[0 := 0], 0;
      index, this.lastAssignedId := map[ROOT := 0], lastAssignedId;
      neverSaved, pendingSave, deletions := {}, {}, [];
      this.disk, storedLastId := disk, lastAssignedId;
      this.cooldown, events := cooldown, [];
      new;
      FirstLoad(Snapshot());
      Load();
      LinkedRoot(heap, root, index, this.disk);
      RootRow(heap, root, index, this.disk);
      assert this.disk == this.disk[ROOT := RowOf(heap, heap[root])];
      this.disk := this.disk[ROOT := RowOf(heap, heap[root])];
    }

    // -- Lookup ---------------------------------------------------------------------------

    /** `attribute_store_node::find_id` finds exactly the node below `p` that has the id. */
    method FindId(p: Ptr, id: Id) returns (r: Option<Ptr>)
      requires Shape() && p in heap
      ensures r.Some? ==> r.value in heap && Under(heap, lev, p, r.value) && heap[r.value].id == id
      ensures r.None? ==> forall q :: Under(heap, lev, p, q) ==> heap[q].id != id
      decreases depth - lev[p]
    {
      if heap[p].id == id { return Some(p); }
      var cs := heap[p].children;
      for i := 0 to |cs|
        invariant forall j, q :: 0 <= j < i && Under(heap, lev, cs[j], q) ==> heap[q].id != id
      {
        r := FindId(cs[i], id);
        if r.Some? {
          UnderUp(heap, lev, p, cs[i], r.value);
          return;
        }
      }
      forall q | Under(heap, lev, p, q) ensures heap[q].id != id {
        if q != p { var j := UnderDown(heap, root, lev, depth, p, q); }
      }
      r := None;
    }

    /** `attribute_store_get_node_from_id`: the map answers, and the traversal that follows a miss
        never finds anything, so the map is what `find_id` computes from the root, for every id. */
    method Lookup(id: Id) returns (r: Option<Ptr>)
      requires Shape()
      ensures r == if id in index then Some(index[id]) else None
      ensures r.Some? ==> r.value in heap && heap[r.value].id == id
      ensures r.Some? <==> id != INVALID && exists q :: q in heap && heap[q].id == id
    {
      if id == INVALID { return None; }
      if id in index {
        assert heap[index[id]].id == id;
        return Some(index[id]);
      }
      r := FindId(root, id);
      assert forall q :: q in heap ==> heap[q].id in index;
    }

    /** The index and the tree traversal agree on every id. */
    lemma IndexAgreesWithTree(id: Id)
      requires Shape()
      ensures id in index <==> exists q :: Under(heap, lev, root, q) && heap[q].id == id
      ensures forall q :: Under(heap, lev, root, q) && heap[q].id == id ==> index[id] == q
    {
      if id in index { UnderRoot(heap, root, lev, depth, index[id]); assert heap[index[id]].id == id; }
      forall q | Under(heap, lev, root, q) && heap[q].id == id ensures id in index && index[id] == q {
        assert heap[q].id in index;
      }
    }

    // -- Ids ------------------------------------------------------------------------------

    /** The 32-bit successor. */
    static function Succ(id: Id): Id {
      if id == 0xFFFF_FFFF then 0 else id + 1
    }

    static predicate Usable(id: Id, index: Index) {
      id != INVALID && id != ROOT && id !in index
    }

    /** How many increments lead from `a` to `b`. */
    static function Distance(a: Id, b: Id): nat {
      if a <= b then b - a else 0x1_0000_0000 - a + b
    }

    /** `attribute_store_get_next_id`: the first usable id after the last one, wrapping around. */
    method GetNextId() returns (id: Id)
      requires exists free: Id :: Usable(free, index)
      modifies this`lastAssignedId
      ensures id == lastAssignedId && Usable(id, index)
    {
      ghost var free: Id :| Usable(free, index);
      lastAssignedId := Succ(lastAssignedId);
      while !Usable(lastAssignedId, index)
        decreases Distance(lastAssignedId, free)
      {
        lastAssignedId := Succ(lastAssignedId);
      }
      id := lastAssignedId;
    }

    // -- Adding ---------------------------------------------------------------------------

    /** `attribute_store_store_attribute` */
    method StoreAttribute(p: Ptr)
      requires Shape() && p in heap
      modifies this`neverSaved, this`pendingSave, this`disk
      ensures View() == StoreLedger.StoreAttribute(old(View()), heap[p].id)
    {
      var node := heap[p];
      assert index[node.id] == p;
      if p == root {
        disk := disk[node.id := RowOf(heap, node)];
      } else if cooldown == 0 {
        disk := disk[node.id := RowOf(heap, node)];
        neverSaved := neverSaved - {node.id};
      } else {
        pendingSave := pendingSave + {node.id};
      }
    }

    /** `attribute_store_node::add_child`, and the entries for the new node. */
    method AttachChild(p: Ptr, id: Id, typ: nat) returns (c: Ptr)
      requires Shape() && p in heap && Usable(id, index)
      modifies this`heap, this`nextPtr, this`lev, this`depth, this`index
      ensures Shape() && c in heap && c != root && heap[c].id == id && id in index
      ensures Rows(heap, index) == old(Rows(heap, index))[id := Row(typ, old(heap)[p].id, [], [])]
    {
      hide IsTree, Indexed, Rows, WithChild;
      c := nextPtr;
      WithChildShape(heap, root, lev, depth, index, nextPtr, p, id, typ);
      lev, depth := lev[c := lev[p] + 1], depth + 1;
      heap, nextPtr, index := WithChild(heap, p, c, id, typ), nextPtr + 1, index[id := c];
    }

    /** A child with a fresh id, and its bookkeeping. */
    method CreateChild(p: Ptr, typ: nat) returns (id: Id)
      requires Shape() && p in heap && exists free: Id :: Usable(free, index)
      modifies this`heap, this`nextPtr, this`lev, this`depth, this`index, this`lastAssignedId, this`neverSaved,
               this`pendingSave, this`disk
      ensures Shape() && Usable(id, old(index))
      ensures View() == Add(old(View()), id, Row(typ, old(heap)[p].id, [], []))
    {
      hide IsTree, Indexed, Rows;
      id := GetNextId();
      var c := AttachChild(p, id, typ);
      neverSaved := neverSaved + {id};
      StoreAttribute(c);
    }

    /** `attribute_store_add_node`; `allowed` is the outcome of the type validation. */
    method AddNode(typ: nat, parentId: Id, allowed: bool) returns (id: Id)
      requires Shape() && exists free: Id :: Usable(free, index)
      modifies this`heap, this`nextPtr, this`lev, this`depth, this`index, this`lastAssignedId, this`neverSaved,
               this`pendingSave, this`disk, this`events
      ensures Shape()
      ensures id != INVALID <==>
              typ != INVALID_TYPE && parentId in old(index) && old(index)[parentId] !in undergoingDeletion && allowed
      ensures id == INVALID ==> View() == old(View()) && events == old(events)
      ensures id != INVALID ==>
                Usable(id, old(index)) && events == old(events) + [Created(id)] &&
                View() == Add(old(View()), id, Row(typ, parentId, [], []))
    {
      hide IsTree, Indexed, Rows, Add;
      if typ == INVALID_TYPE { return INVALID; }
      var parent := Lookup(parentId);
      if parent.None? || parent.value in undergoingDeletion || !allowed { return INVALID; }
      id := CreateChild(parent.value, typ);
      events := events + [Created(id)];
    }

    // -- Values ---------------------------------------------------------------------------

    /** Assigning the values of a node. */
    method ReplaceNode(p: Ptr, node: Node)
      requires Shape() && p in heap && SameLinks(heap[p], node)
      modifies this`heap
      ensures Shape() && heap == old(heap)[p := node]
      ensures Rows(heap, index) == old(Rows(heap, index))[node.id := RowOf(old(heap), node)]
    {
      hide IsTree, Indexed, Rows;
      ValueChangeTree(heap, root, lev, depth, p, node);
      ValueChangeRows(heap, index, p, node);
      RootInHeap(heap, root, lev, depth);
      heap := heap[p := node];
    }

    method WriteNode(p: Ptr, node: Node)
      requires Shape() && p in heap && SameLinks(heap[p], node)
      modifies this`heap, this`neverSaved, this`pendingSave, this`disk
      ensures Shape() && heap == old(heap)[p := node]
      ensures View() == Write(old(View()), node.id, RowOf(old(heap), node))
    {
      hide IsTree, Indexed, Rows;
      ReplaceNode(p, node);
      StoreAttribute(p);
    }

    /** `attribute_store_set_node_attribute_value`; `allowed` is the outcome of the write
        validation. Writing the value a node already has only touches it. */
    method SetValue(id: Id, state: ValueState, value: seq<Byte>, allowed: bool) returns (status: Status)
      requires Shape()
      modifies this`heap, this`neverSaved, this`pendingSave, this`disk, this`events
      ensures Shape()
      ensures status == Ok <==> id in index && index[id] !in undergoingDeletion &&
                                (allowed || ValueOf(old(View()).tree[id], state) == value)
      ensures status != Ok ==> View() == old(View()) && events == old(events)
      ensures status == Ok && ValueOf(old(View()).tree[id], state) == value ==>
                View() == old(View()) && events == old(events) + [Touched(id)]
      ensures status == Ok && ValueOf(old(View()).tree[id], state) != value ==>
                events == old(events) + [Updated(id, state)] &&
                View() == Write(old(View()), id, WithValue(old(View()).tree[id], state, value))
    {
      hide IsTree, Indexed, Rows, Write;
      var found := Lookup(id);
      if found.None? || found.value in undergoingDeletion { return Fail; }
      var p := found.value;
      RowAt(heap, index, id);
      if (if state.Desired? then heap[p].desired else heap[p].reported) == value {
        events := events + [Touched(id)];
        return Ok;
      }
      if !allowed { return Fail; }
      var node := if state.Desired? then heap[p].(desired := value) else heap[p].(reported := value);
      WriteNode(p, node);
      events := events + [Updated(id, state)];
      status := Ok;
    }

    // -- Deletion -------------------------------------------------------------------------

    ghost function Snapshot(): Snap
      requires Indexed(heap, index)
      reads this
    {
      Snap(heap, index, View(), events)
    }

    /** `attribute_store_delete_node`: the subtree goes, in post-order; the root itself stays and
        only loses its values. It succeeds if and only if no node of the subtree is being deleted already;
        otherwise it stops there, and the node stays marked. */
    method DeleteNode(id: Id) returns (status: Status)
      requires Shape()
      modifies this`heap, this`index, this`undergoingDeletion, this`pendingSave, this`neverSaved, this`deletions,
               this`disk, this`events
      ensures Shape() && old(undergoingDeletion) <= undergoingDeletion
      ensures status == (if id !in old(index) || Clear(Below(old(heap), lev, depth, old(index)[id]) +
              [old(index)[id]], old(undergoingDeletion)) then Ok else InProgress)
      ensures status == Ok || old(index)[id] in old(undergoingDeletion) ==>
              undergoingDeletion == old(undergoingDeletion)
      ensures id !in old(index) || old(index)[id] in old(undergoingDeletion) ==> Snapshot() == old(Snapshot())
      ensures id in old(index) && id != ROOT && status == Ok ==>
                var p := old(index)[id];
                Snapshot() == AfterDelete(old(Snapshot()), Below(old(heap), lev, depth, p) + [p])
      ensures id == ROOT && status == Ok ==>
                Snapshot() == Wiped(AfterDelete(old(Snapshot()), Below(old(heap), lev, depth, root)), root)
      ensures status == InProgress ==>
                var p := old(index)[id];
                Stopped(old(Snapshot()), Below(old(heap), lev, depth, p), Snapshot()) &&
                    (p != root ==> p in undergoingDeletion)
      decreases if id in index then Height(lev, depth, index[id]) else 0, 2
    {
      hide LinkedDown, LinkedUp, NoTwins, Rows, AfterDelete, Below, Wiped, Clear, Stopped;
      if id == INVALID { return Ok; }
      var found := Lookup(id);
      if found.None? { return Ok; }
      var p := found.value;
      ClearConcat(Below(heap, lev, depth, p), [p], undergoingDeletion);
      ClearOne(p, undergoingDeletion);
      if p in undergoingDeletion {
        StoppedAtOnce(Snapshot(), Below(heap, lev, depth, p));
        return InProgress;
      }
      status := DeleteUnmarked(p);
    }

    method DeleteUnmarked(p: Ptr) returns (status: Status)
      requires Shape() && p in heap && p !in undergoingDeletion
      modifies this`heap, this`index, this`undergoingDeletion, this`pendingSave, this`neverSaved, this`deletions,
               this`disk, this`events
      ensures Shape() && old(undergoingDeletion) <= undergoingDeletion
      ensures status == if Clear(Below(old(heap), lev, depth, p), old(undergoingDeletion)) then Ok else InProgress
      ensures status == Ok ==> undergoingDeletion == old(undergoingDeletion)
      ensures p != root && status == Ok ==>
              Snapshot() ==
              AfterDelete(old(Snapshot()), Below(old(heap), lev, depth, p) + [p])
      ensures p == root && status == Ok ==>
              Snapshot() ==
              Wiped(AfterDelete(old(Snapshot()), Below(old(heap), lev, depth, root)), root)
      ensures status == InProgress ==>
                Stopped(old(Snapshot()), Below(old(heap), lev, depth, p), Snapshot()) &&
                    (p != root ==> p in undergoingDeletion)
      decreases Height(lev, depth, p), 1
    {
      hide LinkedDown, LinkedUp, NoTwins, Rows, AfterDelete, Below, Wiped, Stopped;
      ghost var s := Snapshot();
      BelowOthers(heap, root, lev, depth, p);
      if p != root { undergoingDeletion := undergoingDeletion + {p}; }
      status := DeleteChildren(p);
      if status != Ok { return; }
      if p == root {
        WipeRoot();
      } else {
        ReleaseLeaf(p);
        AfterDeleteConcat(s, Below(s.heap, lev, depth, p), [p]);
        undergoingDeletion := undergoingDeletion - {p};
      }
    }

    method WipeRoot()
      requires Shape()
      modifies this`heap, this`pendingSave, this`neverSaved, this`disk
      ensures Shape() && Snapshot() == Wiped(old(Snapshot()), root)
    {
      hide LinkedDown, LinkedUp, NoTwins, Rows, Write;
      assert index[heap[root].id] == root;
      RowAt(heap, index, ROOT);
      WriteNode(root, heap[root].(reported := [], desired := []));
    }

    /** The loop that deletes the first child until there is none, or until one is being deleted already. */
    method DeleteChildren(p: Ptr) returns (status: Status)
      requires Shape() && p in heap
      modifies this`heap, this`index, this`undergoingDeletion, this`pendingSave, this`neverSaved, this`deletions,
               this`disk, this`events
      ensures Shape() && old(undergoingDeletion) <= undergoingDeletion
      ensures status == if Clear(Below(old(heap), lev, depth, p), old(undergoingDeletion)) then Ok else InProgress
      ensures status == Ok ==> undergoingDeletion == old(undergoingDeletion) && p in heap && heap[p].children == []
      ensures status == Ok ==> Snapshot() == AfterDelete(old(Snapshot()), Below(old(heap), lev, depth, p))
      ensures status == InProgress ==> Stopped(old(Snapshot()), Below(old(heap), lev, depth, p), Snapshot())
      decreases Height(lev, depth, p), 0
    {
      hide LinkedDown, LinkedUp, NoTwins, Rows, AfterDelete, Kids, Clear, Stopped, PostOrder;
      ghost var s, k, marked := Snapshot(), 0, undergoingDeletion;
      ghost var cs, f := heap[p].children, Height(lev, depth, p);
      AfterDeleteNothing(s);
      NoneOf(s.heap, cs, f);
      ClearNone(marked);
      while heap[p].children != []
        invariant Shape() && undergoingDeletion == marked
        invariant k <= |cs| && p in heap && heap[p].children == cs[k..]
        invariant Snapshot() == AfterDelete(s, Kids(s.heap, cs, k, f)) && Clear(Kids(s.heap, cs, k, f), marked)
        decreases |heap[p].children|
      {
        NextVictims(s, root, lev, depth, p, k);
        RemainingKids(s, root, lev, depth, p, k + 1);
        status := DeleteNode(heap[heap[p].children[0]].id);
        if status != Ok {
          StoppedAbove(s, root, lev, depth, p, k, marked, Snapshot());
          return;
        }
        NextKids(s.heap, cs, k, f);
        ClearConcat(Kids(s.heap, cs, k, f), PostOrder(s.heap, cs[k], f), marked);
        k := k + 1;
      }
      status := Ok;
    }

    /** The bookkeeping for a deleted node, its event, and the release of the node object. */
    method ReleaseLeaf(p: Ptr)
      requires Shape() && p in heap && p != root && heap[p].children == []
      modifies this`heap, this`index, this`pendingSave, this`neverSaved, this`deletions, this`disk, this`events
      ensures Shape() && Snapshot() == AfterDelete(old(Snapshot()), [p])
    {
      hide IsTree, Indexed, Rows, Removed, AfterDelete, Delete;
      var id := heap[p].id;
      LeafShape(heap, root, lev, depth, index, nextPtr, p);
      UnlinkIsRemoved(heap, root, lev, depth, p);
      ghost var s := Snapshot();
      Forget(id);
      events := events + [Deleted(id)];
      var parent := heap[p].parent.value;
      index := index - {id};
      heap := (heap - {p})[parent := heap[parent].(children := Keep(heap[parent].children, {p}))];
      AfterDeleteOne(s, p);
    }

    /** What a deletion does to the bookkeeping. */
    method Forget(id: Id)
      requires Indexed(heap, index)
      modifies this`pendingSave, this`neverSaved, this`deletions, this`disk
      ensures View().(tree := View().tree - {id}) == Delete(old(View()), id)
    {
      hide Indexed, Rows;
      pendingSave := pendingSave - {id};
      if id in neverSaved {
        neverSaved := neverSaved - {id};
      } else {
        deletions := deletions + [id];
      }
      if cooldown == 0 {
        FlushDeletions();
      }
    }

    /** `attribute_store_delete_pending_deletions_from_datastore` */
    method FlushDeletions()
      requires Indexed(heap, index)
      modifies this`disk, this`deletions
      ensures View() == Flush(old(View()))
    {
      hide Indexed, Rows;
      ghost var queue, k := deletions, 0;
      while deletions != []
        invariant k <= |queue| && deletions == queue[k..]
        invariant disk == old(disk) - Doomed(queue[..k], neverSaved)
        decreases |deletions|
      {
        var id := deletions[0];
        assert queue[..k + 1] == queue[..k] + [id];
        if id !in neverSaved {
          disk := disk - {id};
        }
        deletions, k := deletions[1..], k + 1;
      }
      assert queue[..|queue|] == queue;
    }

    // -- Saving ---------------------------------------------------------------------------

    /** The part of `attribute_store_save_node_to_datastore` that handles the node itself. */
    method SaveOne(p: Ptr)
      requires Shape() && p in heap
      modifies this`disk, this`pendingSave
      ensures View() == SavePart(old(View()), {heap[p].id})
    {
      hide LinkedDown, NoTwins, Rows, SavePart;
      var node := heap[p];
      assert index[node.id] == p && (p == root <==> node.id == ROOT);
      RowAt(heap, index, node.id);
      SavePartOne(View(), node.id);
      if node.parent.None? {
        disk := disk[node.id := RowOf(heap, node)];
      } else if node.id in pendingSave {
        disk := disk[node.id := RowOf(heap, node)];
        pendingSave := pendingSave - {node.id};
      }
    }

    /** `attribute_store_save_node_to_datastore`: a node, then its children. */
    method SaveNode(p: Ptr)
      requires Shape() && p in heap
      modifies this`disk, this`pendingSave
      ensures View() == SavePart(old(View()), IdsIn(heap, Below(heap, lev, depth, p) + [p]))
      decreases Height(lev, depth, p)
    {
      hide LinkedUp, NoTwins, Rows, Indexed, SavePart, IdsIn, Kids;
      SaveOne(p);
      ghost var v, f := old(View()), Height(lev, depth, p);
      var cs := heap[p].children;
      NoneOf(heap, cs, f);
      IdsInOne(heap, p);
      for i := 0 to |cs|
        invariant View() == SavePart(v, IdsIn(heap, Kids(heap, cs, i, f) + [p]))
      {
        SaveNode(cs[i]);
        NextPart(heap, lev, depth, p, i);
        SavePartTwice(v, IdsIn(heap, Kids(heap, cs, i, f) + [p]),
            IdsIn(heap, Below(heap, lev, depth, cs[i]) + [cs[i]]));
      }
    }

    /** `attribute_store_save_to_datastore` */
    method SaveAll()
      requires Shape()
      modifies this`disk, this`pendingSave, this`neverSaved, this`deletions, this`storedLastId
      ensures View() == Save(old(View()))
      ensures storedLastId == if old(pendingSave) != {} || old(deletions) != [] then lastAssignedId
              else old(storedLastId)
    {
      hide IsTree, Indexed, Rows, SavePart, IdsIn, Below;
      if pendingSave != {} || deletions != [] {
        WholeTree(heap, root, lev, depth, index);
        SaveNode(root);
        FlushDeletions();
        storedLastId := lastAssignedId;
      }
      neverSaved := {};
    }

    // -- Loading --------------------------------------------------------------------------

    /** The first loop of `attribute_store_load_all_nodes_from_datastore`: one node per row, in
        whatever order the datastore returns the rows. */
    method FetchRows() returns (links: seq<(Id, Id)>)
      requires Fetched(heap, root, index, disk, {}, nextPtr) && ROOT in disk && disk[ROOT].typ == heap[root].typ
      modifies this`heap, this`index, this`nextPtr
      ensures Fetched(heap, root, index, disk, disk.Keys, nextPtr) && LinksOf(disk, disk.Keys, links)
    {
      hide Fetched, LinksOf;
      var rest := disk.Keys;
      links := [];
      RootFetched(heap, root, index, disk, {}, nextPtr);
      NoLinks(disk);
      assert disk.Keys - rest == {};
      while rest != {}
        invariant rest <= disk.Keys && root in heap && heap[root].typ == disk[ROOT].typ && heap[root].id == ROOT
        invariant Fetched(heap, root, index, disk, disk.Keys - rest, nextPtr) && LinksOf(disk, disk.Keys - rest, links)
        decreases rest
      {
        var id :| id in rest;
        var row := disk[id];
        MoreLinks(disk, disk.Keys - rest, links, id);
        links := links + [(row.parent, id)];
        if id == ROOT {
          FetchRoot(heap, root, index, disk, disk.Keys - rest, nextPtr);
          heap := heap[root := heap[root].(reported := row.reported, desired := row.desired)];
          index := index[id := root];
        } else {
          FetchNode(heap, root, index, disk, disk.Keys - rest, nextPtr, id);
          RootFetched(heap, root, index, disk, disk.Keys - rest, nextPtr);
          heap := heap[nextPtr := Node(id, row.typ, None, [], row.reported, row.desired)];
          index := index[id := nextPtr];
          nextPtr := nextPtr + 1;
        }
        assert disk.Keys - (rest - {id}) == (disk.Keys - rest) + {id};
        rest := rest - {id};
      }
      assert disk.Keys - rest == disk.Keys;
    }

    /** The second loop: every node is linked to its parent, if the parent has a row; the root has none. */
    method LinkRows(links: seq<(Id, Id)>)
      requires Linked(heap, root, index, disk, {}) && LinksOf(disk, disk.Keys, links) && Rooted(disk)
      modifies this`heap
      ensures Linked(heap, root, index, disk, disk.Keys) && heap.Keys == old(heap).Keys
    {
      assert ChildrenOf(links) == disk.Keys;
      hide Linked, LinksOf, ChildrenOf;
      NoChildren(links);
      for i := 0 to |links|
        invariant Linked(heap, root, index, disk, ChildrenOf(links[..i])) && heap.Keys == old(heap).Keys
      {
        LinkAt(disk, links, i);
        LinkRow(links[i].0, links[i].1, ChildrenOf(links[..i]));
      }
      assert links[..|links|] == links;
    }

    method LinkRow(parentId: Id, id: Id, ghost done: set<Id>)
      requires Linked(heap, root, index, disk, done) && Rooted(disk)
      requires id in disk && id !in done && parentId == disk[id].parent
      modifies this`heap
      ensures Linked(heap, root, index, disk, done + {id}) && heap.Keys == old(heap).Keys
    {
      hide Linked;
      LinkedIndex(heap, root, index, disk, done);
      if parentId != INVALID && parentId in index {
        var p, c := index[parentId], index[id];
        LinkStep(heap, root, index, disk, done, id);
        heap := heap[p := heap[p].(children := heap[p].children + [c])];
        heap := heap[c := heap[c].(parent := Some(p))];
      } else {
        NoParentRow(heap, root, index, disk, done, id);
      }
    }

    method Rebuild()
      requires Fetched(heap, root, index, disk, {}, nextPtr) && Rooted(disk) && disk[ROOT].typ == heap[root].typ
      modifies this`heap, this`index, this`nextPtr, this`lev, this`depth
      ensures Linked(heap, root, index, disk, disk.Keys)
      ensures OneTree(disk) ==> Shape() && Rows(heap, index) == disk
    {
      hide IsTree, Indexed, Rows, Linked, TreeOnDisk, LinksOf, Fetched;
      var links := FetchRows();
      FetchedPtrs(heap, root, index, disk, nextPtr);
      FetchedIsUnlinked(heap, root, index, disk, nextPtr);
      LinkRows(links);
      if rank: Ranks, n: nat :| TreeOnDisk(disk, rank, n) {
        LoadedShape(heap, root, index, disk, rank, n, nextPtr);
        lev, depth := LevelsOf(heap, rank), n;
      }
    }

    /** `attribute_store_load_all_nodes_from_datastore`: every row that the datastore holds once the old tree
        is deleted has its node, linked to its parent if the parent has a row. The nodes form a tree if and
        only if the rows do, and it is then what the datastore holds. */
    method Load()
      requires Valid() && INVALID !in disk
      modifies this`heap, this`index, this`nextPtr, this`undergoingDeletion, this`pendingSave, this`neverSaved,
               this`deletions, this`disk, this`events, this`lev, this`depth
      ensures Linked(heap, root, index, disk, disk.Keys) && Rooted(disk) &&
              disk == old(AtLoad(Snapshot(), root, lev, depth)).disk
      ensures Valid() <==> OneTree(disk)
      ensures Valid() ==> View() == var l := old(AtLoad(Snapshot(), root, lev, depth));
              l.(tree := l.disk, deletions := [])
    {
      hide IsTree, Indexed, Rows, Fetched, Linked, OneTree, AfterDelete, Wiped, Below, Rooted;
      RootIndexed(heap, root, lev, depth, index, nextPtr);
      RootAlone(Snapshot(), root, lev, depth, nextPtr);
      var status := DeleteNode(ROOT);
      deletions := [];
      RootedHasRoot(disk);
      Rebuild();
      if Shape() { LinkedTree(heap, root, index, disk, lev, depth); }
    }

    /** Saving and loading again gives back every node but the root with its id, type, parent and
        values. The root loses its values, because the load deletes them from the datastore before
        it reads; and with a zero cooldown the load deletes all other rows too. */
    method SaveThenLoad()
      requires Valid() && Steady(View())
      modifies this
      ensures Valid() && Steady(View()) && cooldown == old(cooldown)
      ensures ROOT in old(View()).tree && ROOT in View().tree
      ensures cooldown != 0 ==>
                View().tree == old(View()).tree[ROOT := old(View()).tree[ROOT].(reported := [], desired := [])]
      ensures cooldown == 0 ==> View().tree.Keys == {ROOT}
    {
      hide IsTree, Indexed, Rows, AtLoad, TreeOnDisk, Sound, Save, Linked;
      ghost var l := View();
      RootIndexed(heap, root, lev, depth, index, nextPtr);
      RowAt(heap, index, ROOT);
      SaveExact(l);
      SaveAll();
      DiskAtLoad(Snapshot(), root, lev, depth, nextPtr);
      RowsAreATree(heap, root, lev, depth, index, nextPtr);
      WipedTree(disk, RanksOf(heap, lev, index), depth);
      RowsKeys(heap, index);
      Load();
    }

    /** `attribute_store_teardown` followed by `attribute_store_init`: the new store has every node
        of the old one, for every cooldown. */
    static method Restart(before: Store) returns (after: Store)
      requires before.Valid() && Steady(before.View())
      modifies before
      ensures fresh(after) && after.Valid() && Steady(after.View()) && ROOT in old(before.View()).tree
      ensures after.View().tree == old(before.View()).tree[ROOT := EmptyRoot()]
      ensures after.lastAssignedId ==
              if old(before.pendingSave) != {} || old(before.deletions) != [] then old(before.lastAssignedId)
                  else old(before.storedLastId)
    {
      hide IsTree, Indexed, Rows, TreeOnDisk, Sound, Save, Linked;
      RootIndexed(before.heap, before.root, before.lev, before.depth, before.index, before.nextPtr);
      RowAt(before.heap, before.index, ROOT);
      SaveExact(before.View());
      before.SaveAll();
      RowsAreATree(before.heap, before.root, before.lev, before.depth, before.index, before.nextPtr);
      EmptyRootTree(before.disk, RanksOf(before.heap, before.lev, before.index), before.depth);
      RowsKeys(before.heap, before.index);
      after := new Store(before.disk, before.cooldown, before.storedLastId);
    }

    // -- Whole runs -----------------------------------------------------------------------

    /** One call of a client, for a store that is not in the middle of a deletion. The cooldown is only
        switched off while no deletion is queued. */
    method Perform(op: ClientOp)
      requires Valid() && Steady(View())
      modifies this
      ensures Valid() && Steady(View())
    {
      hide IsTree, Indexed, Rows, Sound, Add, Write, Save, AfterDelete, Below, Wiped;
      ghost var l := View();
      RowsKeys(heap, index);
      match op
      case AddOp(typ, parentId, allowed, free) =>
        if Usable(free, index) {
          var id := AddNode(typ, parentId, allowed);
          if id != INVALID { ApplySteady(l, DoAdd(id, Row(typ, parentId, [], []))); }
        }
      case WriteOp(id, state, value, allowed) =>
        var status := SetValue(id, state, value, allowed);
        if View() != l { ApplySteady(l, DoWrite(id, WithValue(l.tree[id], state, value))); }
      case DeleteOp(id) => DeleteSteadily(id);
      case SaveOp =>
        RootOnDisk(l);
        SaveAll();
        ApplySteady(l, DoSave);
      case CooldownOp(interval) =>
        if interval != 0 || deletions == [] {
          ApplySteady(l, DoSetCooldown(interval != 0));
          cooldown := interval;
        }
    }

    method DeleteSteadily(id: Id)
      requires Valid() && Steady(View())
      modifies this`heap, this`index, this`undergoingDeletion, this`pendingSave, this`neverSaved, this`deletions,
               this`disk, this`events
      ensures Valid() && Steady(View())
    {
      hide IsTree, Indexed, Rows, Sound, Below, Wiped, AfterDelete;
      if id in index { VictimsSteady(Snapshot(), root, lev, depth, nextPtr, id); }
      var status := DeleteNode(id);
    }

    /** After any run of client calls a save leaves the datastore equal to the tree. */
    method RunThenSave(ops: seq<ClientOp>)
      requires Valid() && Steady(View())
      modifies this
      ensures Valid() && Steady(View()) && disk == View().tree
    {
      hide IsTree, Indexed, Rows, Sound, Save;
      for i := 0 to |ops|
        invariant Valid() && Steady(View())
      {
        Perform(ops[i]);
      }
      SaveExact(View());
      SaveAll();
    }
  }
}
