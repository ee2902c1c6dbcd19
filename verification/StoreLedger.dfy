/** Write-behind persistence of the attribute store: the rows of the tree, the rows on disk and
    the three containers in between (never saved, pending save, pending deletion). */
module StoreLedger {
  import opened Common

  type Id = x: int | 0 <= x < 0x1_0000_0000

  const INVALID: Id := 0
  const ROOT: Id := 1

  /** One attribute as the datastore keeps it; the root has parent 0. */
  datatype Row = Row(typ: nat, parent: Id, reported: seq<Byte>, desired: seq<Byte>)

  /** `deferred` says that the auto-save cooldown is not zero. */
  datatype Ledger = Ledger(
    tree: map<Id, Row>,
    neverSaved: set<Id>,
    pendingSave: set<Id>,
    deletions: seq<Id>,
    disk: map<Id, Row>,
    deferred: bool)

  // -- The operations ---------------------------------------------------------------------

  /** `attribute_store_store_attribute` */
  function StoreAttribute(l: Ledger, id: Id): Ledger
    requires id in l.tree
  {
    if id == ROOT then l.(disk := l.disk[id := l.tree[id]])
    else if !l.deferred then l.(disk := l.disk[id := l.tree[id]], neverSaved := l.neverSaved - {id})
    else l.(pendingSave := l.pendingSave + {id})
  }

  /** The bookkeeping of `attribute_store_add_node` */
  function Add(l: Ledger, id: Id, row: Row): Ledger {
    StoreAttribute(l.(tree := l.tree[id := row], neverSaved := l.neverSaved + {id}), id)
  }

  /** The bookkeeping of `attribute_store_set_node_attribute_value` */
  function Write(l: Ledger, id: Id, row: Row): Ledger {
    StoreAttribute(l.(tree := l.tree[id := row]), id)
  }

  /** The queued ids whose rows a flush removes; never-saved ids are skipped. */
  function Doomed(queue: seq<Id>, neverSaved: set<Id>): set<Id> {
    set id | id in queue && id !in neverSaved
  }

  /** `attribute_store_delete_pending_deletions_from_datastore` */
  function Flush(l: Ledger): Ledger {
    l.(disk := l.disk - Doomed(l.deletions, l.neverSaved), deletions := [])
  }

  /** The bookkeeping for one deleted node in `attribute_store_delete_node` */
  function Delete(l: Ledger, id: Id): Ledger {
    var m := l.(tree := l.tree - {id}, pendingSave := l.pendingSave - {id});
    var n := if id in l.neverSaved then m.(neverSaved := m.neverSaved - {id}) else m.(deletions := m.deletions + [id]);
    if l.deferred then n else Flush(n)
  }

  function DeleteAll(l: Ledger, ids: seq<Id>): Ledger
    decreases |ids|
  {
    if ids == [] then l else Delete(DeleteAll(l, ids[..|ids| - 1]), ids[|ids| - 1])
  }

  /** What a save writes when its traversal meets the nodes `part`: the root, and every node that
      is pending. */
  function SavePart(l: Ledger, part: set<Id>): Ledger {
    var written := set id | id in part && id in l.tree && (id == ROOT || id in l.pendingSave);
    l.(disk := l.disk + (map id | id in written :: l.tree[id]),
       pendingSave := l.pendingSave - (written - {ROOT}))
  }

  function SaveTree(l: Ledger): Ledger {
    SavePart(l, l.tree.Keys)
  }

  lemma SavePartOne(l: Ledger, id: Id)
    requires id in l.tree
    ensures SavePart(l, {id}) ==
            if id == ROOT then l.(disk := l.disk[id := l.tree[id]])
            else if id in l.pendingSave then l.(disk := l.disk[id := l.tree[id]], pendingSave := l.pendingSave - {id})
            else l
  {
    var m := SavePart(l, {id});
    if id == ROOT || id in l.pendingSave {
      assert m.disk == l.disk[id := l.tree[id]];
    } else {
      assert m.disk == l.disk && m.pendingSave == l.pendingSave;
    }
  }

  lemma SavePartRow(l: Ledger, part: set<Id>, id: Id)
    ensures var written := id in part && id in l.tree && (id == ROOT || id in l.pendingSave);
            (id in SavePart(l, part).disk <==> written || id in l.disk) &&
            (written ==> SavePart(l, part).disk[id] == l.tree[id]) &&
            (!written && id in l.disk ==> SavePart(l, part).disk[id] == l.disk[id]) &&
            (id in SavePart(l, part).pendingSave <==> id in l.pendingSave && (id == ROOT || !written))
  {
  }

  lemma SavePartTwice(l: Ledger, a: set<Id>, b: set<Id>)
    ensures SavePart(SavePart(l, a), b) == SavePart(l, a + b)
  {
    var m := SavePart(l, a);
    var x, y := SavePart(m, b), SavePart(l, a + b);
    assert m.tree == l.tree && x.tree == y.tree && x.neverSaved == y.neverSaved && x.deletions == y.deletions &&
        x.deferred == y.deferred;
    hide SavePart;
    forall id ensures id in x.disk <==> id in y.disk
      ensures id in x.disk ==> x.disk[id] == y.disk[id]
      ensures id in x.pendingSave <==> id in y.pendingSave
    {
      SavePartRow(l, a, id);
      SavePartRow(m, b, id);
      SavePartRow(l, a + b, id);
    }
    assert x.disk == y.disk && x.pendingSave == y.pendingSave;
  }

  /** `attribute_store_save_to_datastore` */
  function Save(l: Ledger): Ledger
    requires ROOT in l.tree
  {
    var saved := if l.pendingSave != {} || l.deletions != [] then Flush(SaveTree(l)) else l;
    saved.(neverSaved := {})
  }

  // -- What every step keeps --------------------------------------------------------------

  ghost predicate Sound(l: Ledger) {
    && ROOT in l.tree && ROOT in l.disk && l.disk[ROOT] == l.tree[ROOT] && ROOT !in l.deletions
    && (forall id :: id in l.tree && id != ROOT ==> id in l.pendingSave || (id in l.disk && l.disk[id] == l.tree[id]))
    && (forall id :: id in l.disk ==> id in l.tree || id in l.deletions)
    && (forall id :: id in l.deletions && id in l.tree ==> id in l.neverSaved)
    && l.pendingSave <= l.tree.Keys - {ROOT}
    && l.neverSaved <= l.pendingSave
    && (forall id :: id in l.neverSaved && id in l.disk ==> id in l.deletions)
    && (forall id :: id in l.deletions ==> id in l.disk)
    && (forall id :: id in l.tree && id !in l.neverSaved ==> id in l.disk)
  }

  /** A save now leaves the datastore equal to the tree. */
  ghost predicate Exact(l: Ledger) {
    ROOT in l.tree && Save(l).disk == l.tree
  }

  lemma AddSound(l: Ledger, id: Id, row: Row)
    requires Sound(l) && id !in l.tree
    ensures Sound(Add(l, id, row)) <==> l.deferred || id !in l.deletions
  {
  }

  lemma WriteSound(l: Ledger, id: Id, row: Row)
    requires Sound(l) && id in l.tree
    ensures Sound(Write(l, id, row)) <==> l.deferred || id !in l.deletions
  {
  }

  /** With a zero cooldown nothing stays queued. */
  ghost predicate Steady(l: Ledger) {
    Sound(l) && (!l.deferred ==> l.deletions == [])
  }

  /** A queued id that was issued again and not saved since. */
  predicate Revived(l: Ledger, id: Id) { id in l.deletions && id in l.neverSaved }

  /** A flush skips the revived ids of the queue, and forgets that they still have an old row. */
  lemma FlushSound(l: Ledger)
    requires Sound(l)
    ensures Sound(Flush(l)) <==> forall id :: !Revived(l, id)
  {
    if id :| Revived(l, id) { assert id in Flush(l).disk; }
    if forall id :: !Revived(l, id) {
      forall id | id in l.deletions ensures id !in l.neverSaved { assert !Revived(l, id); }
    }
  }

  /** The bookkeeping of a deletion before the flush. */
  function Unlisted(l: Ledger, id: Id): Ledger {
    var m := l.(tree := l.tree - {id}, pendingSave := l.pendingSave - {id});
    if id in l.neverSaved then m.(neverSaved := m.neverSaved - {id}) else m.(deletions := m.deletions + [id])
  }

  lemma UnlistedSound(l: Ledger, id: Id)
    requires Sound(l) && id in l.tree && id != ROOT
    ensures Sound(Unlisted(l, id)) && Delete(l, id) == if l.deferred then Unlisted(l, id) else Flush(Unlisted(l, id))
    ensures forall q :: Revived(Unlisted(l, id), q) <==> Revived(l, q) && q != id
  {
  }

  lemma DeleteSound(l: Ledger, id: Id)
    requires Sound(l) && id in l.tree && id != ROOT
    ensures Sound(Delete(l, id)) <==> l.deferred || forall q :: Revived(l, q) ==> q == id
  {
    hide Sound, Delete, Unlisted, Flush;
    UnlistedSound(l, id);
    var n := Unlisted(l, id);
    FlushSound(n);
  }

  lemma DeleteSteady(l: Ledger, id: Id)
    requires Steady(l) && id in l.tree && id != ROOT
    ensures Steady(Delete(l, id))
  {
    DeleteSound(l, id);
  }

  /** A save leaves the datastore equal to the tree: same ids, types, parents and values, and no
      row of a deleted node, even if an id still queued for deletion was issued again. */
  lemma SaveExact(l: Ledger)
    requires Sound(l)
    ensures Save(l).disk == l.tree && Save(l).tree == l.tree && Sound(Save(l))
    ensures Save(l).pendingSave == {} && Save(l).neverSaved == {} && Save(l).deletions == []
  {
    var t := SaveTree(l);
    if l.pendingSave != {} || l.deletions != [] {
      assert t.pendingSave == {};
      forall id ensures id in Flush(t).disk <==> id in l.tree {
        if id in l.tree { assert id in t.disk; }
      }
      assert Flush(t).disk == l.tree;
    } else {
      assert l.disk == l.tree;
    }
  }

  /** With a zero cooldown an issued id is written at once and is no longer protected from a
      deletion that is still queued. The next save then keeps the tree on disk if and only if
      the cooldown is not zero or the id is not queued for deletion. */
  lemma AddThenSaveExactIff(l: Ledger, id: Id, row: Row)
    requires Sound(l) && id !in l.tree
    ensures Exact(Add(l, id, row)) <==> l.deferred || id !in l.deletions
  {
    var a := Add(l, id, row);
    AddSound(l, id, row);
    if l.deferred || id !in l.deletions {
      SaveExact(a);
    } else {
      assert id in a.deletions && id !in a.neverSaved;
      assert id !in Save(a).disk && id in a.tree;
    }
  }

  /** The same for a write to a node whose id was issued again before the switch. */
  lemma WriteThenSaveExactIff(l: Ledger, id: Id, row: Row)
    requires Sound(l) && id in l.tree
    ensures Exact(Write(l, id, row)) <==> l.deferred || id !in l.deletions
  {
    var a := Write(l, id, row);
    WriteSound(l, id, row);
    if l.deferred || id !in l.deletions {
      SaveExact(a);
    } else {
      assert id in a.deletions && id !in a.neverSaved;
      assert id !in Save(a).disk && id in a.tree;
    }
  }

  /** After a deletion a save is exact in any case: a revived id that the flush passed is still pending. */
  lemma DeleteThenSaveExact(l: Ledger, id: Id)
    requires Sound(l) && id in l.tree && id != ROOT
    ensures Exact(Delete(l, id))
  {
    hide Delete;
    DeleteSound(l, id);
    UnlistedSound(l, id);
    if Sound(Delete(l, id)) {
      SaveExact(Delete(l, id));
    } else {
      FlushFlushes(Unlisted(l, id));
      FlushedExact(Delete(l, id));
    }
  }

  /** The queue is empty, and every row is of a node of the tree. An old row is of a pending node. */
  ghost predicate Flushed(l: Ledger) {
    && ROOT in l.tree && ROOT in l.disk && l.disk[ROOT] == l.tree[ROOT] && l.deletions == []
    && (forall id :: id in l.tree && id != ROOT ==> id in l.pendingSave || (id in l.disk && l.disk[id] == l.tree[id]))
    && l.disk.Keys <= l.tree.Keys && l.neverSaved <= l.pendingSave <= l.tree.Keys - {ROOT}
  }

  lemma FlushFlushes(l: Ledger)
    requires Sound(l)
    ensures Flushed(Flush(l))
    ensures forall q :: Revived(l, q) <==> q in Flush(l).neverSaved && q in Flush(l).disk
  {
  }

  lemma FlushedExact(l: Ledger)
    requires Flushed(l)
    ensures Exact(l)
  {
    var t := SaveTree(l);
    if l.pendingSave == {} {
      assert l.disk == l.tree;
    } else {
      forall id ensures id in t.disk <==> id in l.tree { }
      assert Flush(t).disk == t.disk == l.tree;
    }
  }

  /** A second deletion leaves an old row behind if and only if, with a zero cooldown, it takes away an id
      that was revived before the first one flushed the queue past it. */
  lemma DeleteTwiceThenSaveExactIff(l: Ledger, id: Id, q: Id)
    requires Sound(l) && id in l.tree && q in l.tree && id != ROOT && q != ROOT && id != q
    ensures Exact(Delete(Delete(l, id), q)) <==> l.deferred || !Revived(l, q)
  {
    hide Delete, Sound, Save;
    var m := Delete(l, id);
    UnlistedSound(l, id);
    DeleteFrame(l, id);
    if l.deferred || forall x :: Revived(l, x) ==> x == id {
      DeleteSound(l, id);
      DeleteThenSaveExact(m, q);
    } else {
      FlushFlushes(Unlisted(l, id));
      FlushedTwice(m, q);
    }
  }

  lemma FlushedTwice(l: Ledger, q: Id)
    requires Flushed(l) && !l.deferred && q in l.tree && q != ROOT
    ensures Exact(Delete(l, q)) <==> !(q in l.neverSaved && q in l.disk)
  {
    var n := Delete(l, q);
    assert n.deletions == [] && n.tree == l.tree - {q};
    if q in l.neverSaved && q in l.disk {
      assert q in n.disk;
      SavePartRow(n, n.tree.Keys, q);
      assert q in Save(n).disk && q !in n.tree;
    } else {
      assert n.disk == l.disk - {q};
      FlushedExact(n);
    }
  }

  // -- Whole runs -------------------------------------------------------------------------

  datatype Op =
    | DoAdd(id: Id, row: Row)
    | DoWrite(id: Id, row: Row)
    | DoDelete(id: Id)
    | DoSave
    | DoSetCooldown(deferred: bool)

  /** What the store guarantees of its own calls: new ids are fresh, only existing nodes are
      written or deleted, the root is never deleted. */
  predicate Possible(l: Ledger, op: Op) {
    match op
    case DoAdd(id, _) => id !in l.tree
    case DoWrite(id, _) => id in l.tree
    case DoDelete(id) => id in l.tree && id != ROOT
    case DoSave => ROOT in l.tree
    case DoSetCooldown(_) => true
  }

  /** With a zero cooldown, no queued id is added or written, and no node is deleted while another id is
      revived. Cooldown changes and saves are free. */
  predicate Careful(l: Ledger, op: Op) {
    l.deferred ||
    match op
    case DoAdd(id, _) => id !in l.deletions
    case DoWrite(id, _) => id !in l.deletions
    case DoDelete(id) => forall q | q in l.deletions :: Revived(l, q) ==> q == id
    case DoSave => true
    case DoSetCooldown(_) => true
  }

  function Apply(l: Ledger, op: Op): Ledger
    requires Possible(l, op)
  {
    match op
    case DoAdd(id, row) => Add(l, id, row)
    case DoWrite(id, row) => Write(l, id, row)
    case DoDelete(id) => Delete(l, id)
    case DoSave => Save(l)
    case DoSetCooldown(deferred) => l.(deferred := deferred)
  }

  predicate IsRun(l: Ledger, ops: seq<Op>)
    decreases |ops|
  {
    ops == [] || (Possible(l, ops[0]) && IsRun(Apply(l, ops[0]), ops[1..]))
  }

  predicate CarefulRun(l: Ledger, ops: seq<Op>)
    requires IsRun(l, ops)
    decreases |ops|
  {
    ops == [] || (Careful(l, ops[0]) && CarefulRun(Apply(l, ops[0]), ops[1..]))
  }

  function Run(l: Ledger, ops: seq<Op>): Ledger
    requires IsRun(l, ops)
    decreases |ops|
  {
    if ops == [] then l else Run(Apply(l, ops[0]), ops[1..])
  }

  /** A step keeps the bookkeeping sound if and only if it is careful. */
  lemma ApplySoundIff(l: Ledger, op: Op)
    requires Sound(l) && Possible(l, op)
    ensures Sound(Apply(l, op)) <==> Careful(l, op)
  {
    hide Sound, Add, Write, Delete, Save;
    match op
    case DoAdd(id, row) => AddSound(l, id, row);
    case DoWrite(id, row) => WriteSound(l, id, row);
    case DoDelete(id) =>
      DeleteSound(l, id);
      assert forall q :: Revived(l, q) ==> q in l.deletions;
    case DoSave => SaveExact(l);
    case DoSetCooldown(deferred) => CooldownSound(l, deferred);
  }

  lemma CooldownSound(l: Ledger, deferred: bool)
    requires Sound(l)
    ensures Sound(l.(deferred := deferred))
  {
  }

  /** After a careless step, some save that follows at once, or after one more deletion, is not exact. */
  lemma CarelessLoses(l: Ledger, op: Op)
    requires Sound(l) && Possible(l, op) && !Careful(l, op)
    ensures !Exact(Apply(l, op)) || exists q ::
            Possible(Apply(l, op), DoDelete(q)) &&
            !Exact(Apply(Apply(l, op), DoDelete(q)))
  {
    hide Sound, Add, Write, Delete, Exact;
    match op
    case DoAdd(id, row) => AddThenSaveExactIff(l, id, row);
    case DoWrite(id, row) => WriteThenSaveExactIff(l, id, row);
    case DoDelete(id) =>
      var q :| q in l.deletions && Revived(l, q) && q != id;
      RevivedInTree(l, q);
      DeleteTwiceThenSaveExactIff(l, id, q);
      DeleteFrame(l, id);
      assert Possible(Apply(l, op), DoDelete(q));
  }

  lemma RevivedInTree(l: Ledger, q: Id)
    requires Sound(l) && Revived(l, q)
    ensures q in l.tree && q != ROOT
  {
  }

  lemma ApplySteady(l: Ledger, op: Op)
    requires Steady(l) && Possible(l, op) && (op.DoSetCooldown? && !op.deferred ==> l.deletions == [])
    ensures Steady(Apply(l, op))
  {
    hide Sound;
    ApplySoundIff(l, op);
  }

  /** After any careful run of adds, writes, deletes, saves and cooldown changes, a save leaves the
      datastore equal to the tree. */
  lemma {:induction false} RunThenSaveExact(l: Ledger, ops: seq<Op>)
    requires Sound(l) && IsRun(l, ops) && CarefulRun(l, ops)
    ensures Sound(Run(l, ops)) && Exact(Run(l, ops))
    decreases |ops|
  {
    if ops == [] {
      SaveExact(l);
    } else {
      ApplySoundIff(l, ops[0]);
      RunThenSaveExact(Apply(l, ops[0]), ops[1..]);
    }
  }

  // -- Runs that lose a row, or keep one too many -----------------------------------------

  const ROOT_ROW: Row := Row(0, 0, [], [])
  const OLD_ROW: Row := Row(5, 1, [], [])
  const NEW_ROW: Row := Row(6, 1, [], [])

  /** A store with its root alone, and a cooldown. */
  function Initial(): Ledger { Ledger(map[1 := ROOT_ROW], {}, {}, [], map[1 := ROOT_ROW], true) }

  lemma InitialSound()
    ensures Sound(Initial())
  {
  }

  lemma {:induction false} RunOn(l: Ledger, ops: seq<Op>, op: Op)
    requires IsRun(l, ops) && Possible(Run(l, ops), op)
    ensures IsRun(l, ops + [op]) && Run(l, ops + [op]) == Apply(Run(l, ops), op)
    decreases |ops|
  {
    if ops == [] {
      assert ops + [op] == [op] && [op][1..] == [];
    } else {
      assert (ops + [op])[1..] == ops[1..] + [op];
      RunOn(Apply(l, ops[0]), ops[1..], op);
    }
  }

  /** Nodes 7 and 8 are saved, and node 7 is deleted. */
  const SAVED_AND_DELETED: seq<Op> := [DoAdd(7, OLD_ROW)] + [DoAdd(8, OLD_ROW)] + [DoSave] + [DoDelete(7)]

  lemma SavedAndDeleted()
    ensures Sound(Initial()) && IsRun(Initial(), SAVED_AND_DELETED)
    ensures Run(Initial(), SAVED_AND_DELETED) ==
            Ledger(map[1 := ROOT_ROW, 8 := OLD_ROW], {}, {}, [7], map[1 := ROOT_ROW, 7 := OLD_ROW, 8 := OLD_ROW], true)
  {
    InitialSound();
    TwoSaved();
    hide IsRun, Run, Sound;
    var l, a := Initial(), [DoAdd(7, OLD_ROW)] + [DoAdd(8, OLD_ROW)] + [DoSave];
    RunOn(l, a, DoDelete(7));
    assert Run(l, a).tree - {7} == map[1 := ROOT_ROW, 8 := OLD_ROW];
  }

  lemma TwoSaved()
    ensures var a := [DoAdd(7, OLD_ROW)] + [DoAdd(8, OLD_ROW)] + [DoSave];
            var rows := map[1 := ROOT_ROW, 7 := OLD_ROW, 8 := OLD_ROW];
            IsRun(Initial(), a) && Run(Initial(), a) == Ledger(rows, {}, {}, [], rows, true)
  {
    TwoAdded();
    hide IsRun, Run;
    var l, a := Initial(), [DoAdd(7, OLD_ROW)] + [DoAdd(8, OLD_ROW)];
    RunOn(l, a, DoSave);
    assert SaveTree(Run(l, a)).disk == Run(l, a).tree;
  }

  lemma TwoAdded()
    ensures var a := [DoAdd(7, OLD_ROW)] + [DoAdd(8, OLD_ROW)];
            var rows := map[1 := ROOT_ROW, 7 := OLD_ROW, 8 := OLD_ROW];
            IsRun(Initial(), a) && Run(Initial(), a) == Ledger(rows, {7, 8}, {7, 8}, [], map[1 := ROOT_ROW], true)
  {
    var l := Initial();
    RunNone(l);
    hide IsRun, Run;
    assert [] + [DoAdd(7, OLD_ROW)] == [DoAdd(7, OLD_ROW)];
    RunOn(l, [], DoAdd(7, OLD_ROW));
    RunOn(l, [DoAdd(7, OLD_ROW)], DoAdd(8, OLD_ROW));
  }

  lemma RunNone(l: Ledger)
    ensures IsRun(l, []) && Run(l, []) == l
  {
  }

  /** The cooldown becomes zero, and id 7 is issued again before its deletion reaches the datastore: the next
      save has no row for it. */
  lemma ReissuedIdIsLost()
    ensures var ops := SAVED_AND_DELETED + [DoSetCooldown(false)] + [DoAdd(7, NEW_ROW)];
            IsRun(Initial(), ops) && {ROOT, 7} <= Run(Initial(), ops).tree.Keys && 7 !in Save(Run(Initial(), ops)).disk
  {
    SavedAndDeleted();
    hide Save, IsRun, Run;
    RunOn(Initial(), SAVED_AND_DELETED, DoSetCooldown(false));
    RunOn(Initial(), SAVED_AND_DELETED + [DoSetCooldown(false)], DoAdd(7, NEW_ROW));
    UnprotectedIsLost(Run(Initial(), SAVED_AND_DELETED + [DoSetCooldown(false)] + [DoAdd(7, NEW_ROW)]), 7);
  }

  /** A queued id that is not protected loses its row with the next save. */
  lemma UnprotectedIsLost(l: Ledger, id: Id)
    requires ROOT in l.tree && id in l.deletions && id !in l.neverSaved
    ensures id !in Save(l).disk
  {
  }

  /** Id 7 is issued again and then the cooldown becomes zero: the first write to node 7 ends its protection,
      and the next save has no row for it. */
  lemma WrittenNodeIsLost()
    ensures var ops := SAVED_AND_DELETED + [DoAdd(7, OLD_ROW)] + [DoSetCooldown(false)] + [DoWrite(7, NEW_ROW)];
            IsRun(Initial(), ops) && {ROOT, 7} <= Run(Initial(), ops).tree.Keys && 7 !in Save(Run(Initial(), ops)).disk
  {
    SavedAndDeleted();
    hide Save, IsRun, Run;
    RunOn(Initial(), SAVED_AND_DELETED, DoAdd(7, OLD_ROW));
    RunOn(Initial(), SAVED_AND_DELETED + [DoAdd(7, OLD_ROW)], DoSetCooldown(false));
    RunOn(Initial(), SAVED_AND_DELETED + [DoAdd(7, OLD_ROW)] + [DoSetCooldown(false)], DoWrite(7, NEW_ROW));
    UnprotectedIsLost(Run(Initial(), SAVED_AND_DELETED + [DoAdd(7, OLD_ROW)] + [DoSetCooldown(false)] +
        [DoWrite(7, NEW_ROW)]), 7);
  }

  /** Id 7 is issued again and then the cooldown becomes zero: deleting node 8 flushes the queue past id 7,
      and deleting node 7 leaves its old row on disk. */
  lemma DeletedNodeIsKept()
    ensures var ops := SAVED_AND_DELETED + [DoAdd(7, NEW_ROW)] + [DoSetCooldown(false)] + [DoDelete(8)] + [DoDelete(7)];
            IsRun(Initial(), ops) && ROOT in Run(Initial(), ops).tree && 7 !in Run(Initial(), ops).tree &&
                7 in Save(Run(Initial(), ops)).disk
  {
    SavedAndDeleted();
    hide Save, IsRun, Run;
    var a := SAVED_AND_DELETED + [DoAdd(7, NEW_ROW)];
    RunOn(Initial(), SAVED_AND_DELETED, DoAdd(7, NEW_ROW));
    RunOn(Initial(), a, DoSetCooldown(false));
    RunOn(Initial(), a + [DoSetCooldown(false)], DoDelete(8));
    var l := Run(Initial(), a + [DoSetCooldown(false)] + [DoDelete(8)]);
    assert 7 in l.disk && 7 in l.neverSaved && l.deletions == [] && !l.deferred;
    RunOn(Initial(), a + [DoSetCooldown(false)] + [DoDelete(8)], DoDelete(7));
    var m := Run(Initial(), a + [DoSetCooldown(false)] + [DoDelete(8)] + [DoDelete(7)]);
    RowStays(m, 7);
  }

  /** A row that is not queued stays on disk. */
  lemma RowStays(l: Ledger, id: Id)
    requires ROOT in l.tree && id in l.disk && id !in l.deletions
    ensures id in Save(l).disk
  {
    SavePartRow(l, l.tree.Keys, id);
  }

  lemma DeleteFrame(l: Ledger, id: Id)
    ensures Delete(l, id).tree == l.tree - {id} && Delete(l, id).deferred == l.deferred
    ensures l.deferred ==> Delete(l, id).disk == l.disk
  {
  }

  lemma {:induction false} DeleteAllFrame(l: Ledger, ids: seq<Id>)
    ensures forall id :: id in DeleteAll(l, ids).tree <==> id in l.tree && id !in ids
    ensures forall id :: id in DeleteAll(l, ids).tree ==> DeleteAll(l, ids).tree[id] == l.tree[id]
    ensures DeleteAll(l, ids).deferred == l.deferred
    ensures l.deferred ==> DeleteAll(l, ids).disk == l.disk
    decreases |ids|
  {
    if ids != [] {
      var n := |ids| - 1;
      DeleteAllFrame(l, ids[..n]);
      DeleteFrame(DeleteAll(l, ids[..n]), ids[n]);
      assert ids == ids[..n] + [ids[n]];
    }
  }

  lemma {:induction false} DeleteAllConcat(l: Ledger, a: seq<Id>, b: seq<Id>)
    ensures DeleteAll(l, a + b) == DeleteAll(DeleteAll(l, a), b)
    decreases |b|
  {
    if b == [] {
      assert a + b == a;
    } else {
      var n := |b| - 1;
      DeleteAllConcat(l, a, b[..n]);
      assert (a + b)[..|a| + n] == a + b[..n];
    }
  }

  /** Deleting a list of distinct nodes one after the other keeps the ledger steady. */
  lemma {:induction false} DeleteAllSteady(l: Ledger, ids: seq<Id>)
    requires Steady(l)
    requires forall i, j :: 0 <= i < j < |ids| ==> ids[i] != ids[j]
    requires forall i :: 0 <= i < |ids| ==> ids[i] in l.tree && ids[i] != ROOT
    ensures Steady(DeleteAll(l, ids))
    decreases |ids|
  {
    hide Sound, Delete;
    if ids != [] {
      var n := |ids| - 1;
      DeleteAllSteady(l, ids[..n]);
      DeleteAllFrame(l, ids[..n]);
      DeleteSteady(DeleteAll(l, ids[..n]), ids[n]);
    }
  }

  /** Deleting everything but the root empties the bookkeeping, and with a zero cooldown the
      datastore as well. */
  lemma DeleteAllOthers(l: Ledger, ids: seq<Id>)
    requires Steady(l)
    requires forall i, j :: 0 <= i < j < |ids| ==> ids[i] != ids[j]
    requires forall id :: id in ids <==> id in l.tree && id != ROOT
    ensures var d := DeleteAll(l, ids);
            d.tree.Keys == {ROOT} && d.tree[ROOT] == l.tree[ROOT] && d.pendingSave == {} && d.neverSaved == {} &&
            d.deferred == l.deferred && (if l.deferred then d.disk == l.disk else d.disk.Keys == {ROOT})
  {
    hide DeleteAll;
    DeleteAllFrame(l, ids);
    DeleteAllSteady(l, ids);
  }

  /** Storing the root as it is read back, and taking the rows as the tree. */
  lemma LoadedSteady(d: Ledger, root: Row)
    requires d.tree.Keys == {ROOT} && d.pendingSave == {} && d.neverSaved == {} && ROOT in d.disk
    ensures var w := Write(d, ROOT, root);
            w.disk == d.disk[ROOT := root] && Steady(w.(tree := w.disk, deletions := []))
  {
  }
}
