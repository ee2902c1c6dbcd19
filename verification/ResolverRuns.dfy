/** Runs of the attribute resolver, step by step from its initial state: a child of the root with a Get
    and a Set rule, whose reported value is 9 and whose desired value is 5. */
module ResolverRuns {
  import opened Common
  import opened StoreLedger
  import opened NodeHeap
  import opened ResolverWalk
  import opened ScanRequests
  import opened RuleGroups
  import opened RuleSlot
  import opened ResolverState
  import opened ResolverInvariants
  import opened AttributeResolver

  function OneType(): Book { Book(map[7 := 0], {(0, 7)}, map[0 := Kind(true, true)], map[]) }

  function OneChild(): Heap { map[1 := Node(0, 0, None, [2], [], []), 2 := Node(0, 7, Some(1), [], [], [])] }

  function NoNumber(t: Typ, v: seq<Byte>): real { 0.0 }

  lemma OneChildTree()
    ensures IsTree(OneChild(), 1, map[1 := 0, 2 := 1], 1) && 0 !in OneChild()
  {
    assert OneChild()[1].children[0] == 2;
  }

  lemma OneChildGroup(rule: RuleType)
    ensures Group(OneType(), OneChild(), rule, 2) == {2}
  {
    var h := OneChild();
    assert Ancestor(h, 1, 0) == Some(1) && Ancestor(h, 2, 1) == Some(1);
    assert (0, 7) in OneType().inverted;
    assert GroupTypes(OneType(), rule, 7) == {7};
  }

  /** The two passes of a scan that lead to the child. */
  lemma OneChildPasses(w: World)
    requires w.h == OneChild() && w.paused == {}
    ensures WalkStep(w, [Entry(1, 0)]) == ([Entry(1, 1), Entry(2, 0)], None)
    ensures WalkStep(w, [Entry(1, 1), Entry(2, 0)]) == ([Entry(1, 1)], Some(2))
  {
    assert !Skipped(w, 1) && !Skipped(w, 2);
    var s := [Entry(1, 1), Entry(2, 0)];
    assert s[..1] == [Entry(1, 1)] && [Entry(1, 0)][..0] + s == s;
  }

  ghost predicate Placed(r: Resolver)
    reads r
  {
    r.root == 1 && r.tree == OneChild() && r.paused == {}
  }

  /** The configuration. */
  ghost predicate Plain(r: Resolver)
    reads r
  {
    Placed(r) && r.book == OneType() && r.numberOf == NoNumber && r.retries == 1 && r.listeners == {}
  }

  /** A single-frame Set of the child is under way. */
  ghost predicate Setting(r: Resolver)
    reads r, r.slot
  {
    && r.Valid() && !r.walking && Plain(r)
    && r.slot.state == Executing(SetRule) && r.slot.pending == 2 && !r.slot.needsMoreFrames &&
       r.slot.due == multiset{} && r.slot.log == [Claimed(2)]
    && r.B() == Books(map[2 := Val([9], [5])], map[], map[2 := false], map[], map[], map[], map[])
    && r.stack == [Entry(1, 1)] && !r.scanRequested && r.queue == []
  }

  /** A pass from the root to the child. */
  method PassRoot(r: Resolver)
    requires r.Valid() && Placed(r) && r.walking && r.stack == [Entry(1, 0)]
    modifies r, r.slot
    ensures r.Valid() && Placed(r) && r.walking && r.stack == [Entry(1, 1), Entry(2, 0)] &&
            r.clock == old(r.clock) && r.listeners == old(r.listeners) && r.resumeTimer == old(r.resumeTimer)
    ensures r.B() == old(r.B()) && r.E() == old(r.E()).(sched := r.S()) && r.scanRequested == old(r.scanRequested) &&
            r.queue == old(r.queue)
  {
    hide Whole, SlotOk, Orderly, WalkStep, Considered, Followed, CallsFirst, AttemptStatusOf, OneChild, OneType,
         AheadOf;
    OneChildPasses(r.W());
    r.NextPass(Accepted(false));
  }

  /** A pass that considers the child and sends a frame. */
  method PassChild(r: Resolver, ghost rule: RuleType)
    requires r.Valid() && Placed(r) && r.walking && r.stack == [Entry(1, 1), Entry(2, 0)]
    requires Taken(r.AttemptStatus(2, Accepted(false))) && rule == if NeedsGet(r.A(), 2) then GetRule else SetRule
    modifies r, r.slot
    ensures r.Valid() && Placed(r) && !r.walking && r.stack == [Entry(1, 1)] && r.listeners == old(r.listeners)
    ensures r.B() == TakenBooks(old(r.B()), rule, 2, false) && r.slot.state == Executing(rule) &&
            r.slot.pending == 2 && !r.slot.needsMoreFrames
    ensures r.slot.due == old(r.slot.due) && r.slot.log == old(r.slot.log) + [Claimed(2)] &&
            r.scanRequested == old(r.scanRequested) && r.queue == old(r.queue)
    ensures r.resumeTimer == old(r.resumeTimer)
    ensures CallsFirst(r.slot.log) <==> old(CallsFirst(r.slot.log)) && forall p :: p in r.slot.due ==> p == NOBODY
  {
    hide Whole, SlotOk, Orderly, WalkStep, CallsFirst, AttemptStatusOf, OneChild, OneType, AheadOf, TakenBooks,
         NeedsGet;
    OneChildPasses(r.W());
    r.NextPass(Accepted(false));
  }

  /** A scan that is under way goes on, from the root to the child. */
  method ScanAgain(r: Resolver)
    requires r.Valid() && Placed(r) && !r.walking && r.slot.state == Idle && r.stack == [Entry(1, 0)] && Next in r.queue
    modifies r, r.slot
    ensures r.Valid() && Placed(r) && r.walking && r.stack == [Entry(1, 1), Entry(2, 0)] && r.B() == old(r.B())
    ensures r.slot.state == Idle && r.slot.due == old(r.slot.due) && r.slot.log == old(r.slot.log)
    ensures r.clock == old(r.clock) && r.listeners == old(r.listeners)
  {
    hide Whole, SlotOk, Orderly, OneChild;
    TakeNext(r);
    PassRoot(r);
  }

  method TakeNext(r: Resolver)
    requires r.Valid() && Placed(r) && !r.walking && r.slot.state == Idle && r.stack == [Entry(1, 0)] && Next in r.queue
    modifies r`queue, r`resumeTimer, r`walking, r`stack, r`scanRequested, r`walk
    ensures r.Valid() && r.walking && r.stack == old(r.stack)
  {
    hide Whole, SlotOk, Orderly, OneChild;
    r.SkipToNext();
    r.BeginNext();
  }

  ghost function First(value: Val): Books { Books(map[2 := value], map[], map[], map[], map[], map[], map[]) }

  ghost function Attributes(vals: Values): Attrs { Attrs(OneType(), NoNumber, 1, OneChild(), vals) }

  /** The child is to be set, and nothing is in the way. */
  lemma SetTaken(b: Books, clock: nat)
    requires b == First(Val([9], [5]))
    ensures var a := Attributes(b.vals);
            !NeedsGet(a, 2) && Taken(AttemptStatusOf(a, b.gets, b.sets, b.cooldown, clock, true, 2, Accepted(false)))
    ensures TakenBooks(b, SetRule, 2, false) == b.(sets := map[2 := false])
  {
    var a := Attributes(b.vals);
    assert !Queued(a, b.gets, b.sets, 2, SetRule);
  }

  /** The first scan begins. */
  method FirstScan(value: Val, book: Book, numberOf: (Typ, seq<Byte>) -> real) returns (r: Resolver)
    ensures fresh(r) && fresh(r.slot) && r.Valid() && Placed(r) && r.walking && r.stack == [Entry(1, 0)] &&
            !r.scanRequested && r.queue == [] && r.resumeTimer == None
    ensures r.book == book && r.numberOf == numberOf && r.retries == 1 && r.retryTimeout == 10_000 && r.listeners == {}
    ensures r.B() == First(value) && r.slot.state == Idle && r.slot.log == [] && r.slot.due == multiset{}
  {
    hide IsTree, Whole, SlotOk, Orderly, OneChild, PlanOf;
    OneChildTree();
    r := new Resolver(1, OneChild(), map[2 := value], book, numberOf, 1, 10_000, map[1 := 0, 2 := 1], 1);
    r.BeginNext();
  }

  /** The first scan reaches the child and sends the frame of its Set. */
  method SetFrame() returns (r: Resolver)
    ensures fresh(r) && fresh(r.slot) && Setting(r)
  {
    hide Whole, SlotOk, Orderly, CallsFirst, OneChild, OneType, AttemptStatusOf, TakenBooks, NeedsGet;
    r := FirstScan(Val([9], [5]), OneType(), NoNumber);
    PassRoot(r);
    SetTaken(r.B(), r.clock);
    PassChild(r, SetRule);
  }

  // -- A status that drops the entry ------------------------------------------------------

  /** A failed transmission leaves the child without a Set to do, and drops its entry. */
  lemma EntryDropped(b: Attrs, d: Desk, e: Desk)
    requires var a := Attributes(map[2 := Val([9], [5])]); Arrived(SendFail, false, 2, a, b, d, e)
    requires d.sets == map[2 := false] && d.floor == map[]
    ensures ValOf(b.vals, 2) == Val([9], []) && 2 !in e.sets && 2 !in e.floor
  {
    hide Group;
    OneChildGroup(SetRule);
    var a := Attributes(map[2 := Val([9], [5])]);
    StatusAt(SendFail, false, a, b, 2);
    assert NeedsSet(a, 2) && !NeedsSet(b, 2);
  }

  /** A completion without the entry restores the re-armed value and paces nothing. */
  lemma RearmedUnpaced(b: Books, d: Books, now: nat, wait: nat)
    requires Completed(Attributes(b.vals), b, Attributes(d.vals), d, 2, now, wait)
    requires b.rearm == map[2 := 3] && ValOf(b.vals, 2).reported == [9] && 2 !in b.sets && 2 !in b.floor
    ensures NeedsSet(Attributes(d.vals), 2) && 2 !in d.floor
  {
    hide GivesUpSet;
    assert ValOf(d.vals, 2) == Val([9], [3]);
  }

  /** The child is re-armed while its Set is in flight, and the transmission fails. */
  method FailedSet() returns (r: Resolver)
    ensures fresh(r) && fresh(r.slot) && r.Valid() && Plain(r) && !r.walking && r.slot.due == multiset{2} &&
            r.rearm == map[2 := 3]
    ensures ValOf(r.vals, 2) == Val([9], []) && 2 !in r.pendingSet && 2 !in r.floor
  {
    hide Whole, SlotOk, Orderly, OneChild, OneType, NoClaim, Arrived;
    r := SetFrame();
    r.RequestRearm(2, 3);
    ghost var d := r.D();
    r.SendDataComplete(SendFail, 2, SetRule);
    EntryDropped(r.A(), d, r.D());
  }

  /** The completion then restores a Set to do, and nothing paces it. */
  method StatusSkipsPacing() returns (r: Resolver)
    ensures r.Valid() && NeedsSet(r.A(), 2) && 2 !in r.floor && 2 !in r.cooldown
  {
    hide Whole, SlotOk, Orderly, OneChild, OneType, NoClaim, Completed, NeedsSet, Nudged;
    r := FailedSet();
    ghost var b := r.B();
    r.CompletionCall(2);
    RearmedUnpaced(b, r.B(), r.clock, r.retryTimeout);
    r.SetsArePaced(2);
  }

  // -- A claim that overtakes a completion call -------------------------------------------

  /** The Set was aborted, and its completion call is owed, with a re-arm. */
  ghost predicate Aborting(r: Resolver)
    reads r, r.slot
  {
    && r.Valid() && Plain(r) && !r.walking && r.slot.state == Idle && r.slot.due == multiset{2} &&
       CallsFirst(r.slot.log)
    && r.pendingGet == map[] && r.pendingSet == map[2 := false] && r.floor == map[] && r.rearm == map[2 := 3]
  }

  /** What the loss of the reported value leaves. */
  lemma EntryKept(b: Attrs, w: World, d: Desk, e: Desk)
    requires b == Attributes(Written(map[2 := Val([9], [5])], 2, Reported, []))
    requires Noticed(Attributes(map[2 := Val([9], [5])]), b, d, e) && Tidied(w, d, e)
    requires d.gets == map[] && d.sets == map[2 := false] && d.floor == map[]
    requires d.sched.stack == [Entry(1, 1)] && !d.sched.scanRequested && d.sched.queue == []
    ensures ValOf(b.vals, 2) == Val([], [5]) && NeedsGet(b, 2)
    ensures e.gets == map[] && e.sets == map[2 := false] && e.floor == map[]
    ensures e.sched.stack == [Entry(1, 1)] || e.sched.stack == [Entry(1, 0)]
    ensures e.sched.scanRequested ==> Next in e.sched.queue
  {
    assert NeedsSet(b, 2) && 2 in d.sets;
    assert 2 in e.sets;
  }

  /** The last child of the root is behind the index 1. */
  lemma ChildBehind(w: World)
    requires w.h == OneChild()
    ensures !AheadOf(w, [Entry(1, 1)], 2)
  {
  }

  /** The child is re-armed, and its Set is aborted. */
  method AbortSet() returns (r: Resolver)
    ensures fresh(r) && fresh(r.slot) && Aborting(r) && r.vals == map[2 := Val([9], [5])]
    ensures r.stack == [Entry(1, 1)] && !r.scanRequested && r.queue == []
  {
    hide Whole, SlotOk, Orderly, OneChild, OneType, NoClaim, Arrived;
    r := SetFrame();
    r.RequestRearm(2, 3);
    ghost var log := r.slot.log;
    r.SendDataComplete(Aborted, 2, SetRule);
    NoClaimKeeps(log, r.slot.log);
  }

  /** Before the completion call the reported value is lost. The scan that is under way is asked to come
      back to the child, and has its event. */
  method LoseReport(r: Resolver)
    requires Aborting(r) && r.vals == map[2 := Val([9], [5])] && r.stack == [Entry(1, 1)] && !r.scanRequested &&
             r.queue == []
    modifies r
    ensures Aborting(r) && ValOf(r.vals, 2) == Val([], [5]) && r.stack == [Entry(1, 0)] && Next in r.queue
  {
    hide Whole, SlotOk, Orderly, OneChild, OneType, NeedsSet, NeedsGet, Noticed, Tidied, AheadOf, Under, Written,
         CallsFirst;
    ghost var d := r.D();
    OneChildKind();
    r.StoreWrite(2, Reported, []);
    EntryKept(r.A(), r.W(), d, r.D());
    r.AskedServed();
    ChildBehind(r.W());
  }

  /** The child is to be read for the first time, and nothing is in the way. */
  lemma GetTaken(b: Books, clock: nat)
    requires ValOf(b.vals, 2).reported == [] && b.gets == map[]
    ensures var a := Attributes(b.vals);
            NeedsGet(a, 2) && Taken(AttemptStatusOf(a, b.gets, b.sets, b.cooldown, clock, true, 2, Accepted(false)))
    ensures TakenBooks(b, GetRule, 2, false) == b.(gets := map[2 := PendingGet(0, 1)],
            tries := b.tries[2 := Tries(1, 0)])
  {
    var a := Attributes(b.vals);
    assert !Queued(a, b.gets, b.sets, 2, GetRule);
  }

  /** The Get of the child claims the slot while the completion call of its Set is owed. */
  method OvertakingGet() returns (r: Resolver)
    ensures fresh(r) && fresh(r.slot) && r.Valid() && Plain(r) && !r.walking && r.slot.state == Executing(GetRule) &&
            r.slot.due == multiset{2}
    ensures !CallsFirst(r.slot.log)
    ensures ValOf(r.vals, 2) == Val([], [5]) && r.pendingGet == map[2 := PendingGet(0, 1)] &&
            r.pendingSet == map[2 := false] && r.rearm == map[2 := 3]
  {
    hide Whole, SlotOk, Orderly, OneChild, OneType, CallsFirst, AttemptStatusOf, TakenBooks, NeedsGet;
    r := AbortSet();
    LoseReport(r);
    ScanAgain(r);
    GetTaken(r.B(), r.clock);
    PassChild(r, GetRule);
  }

  /** The completion of the Set also gives up the Get, and with it the entry of the Set; the re-arm then
      restores a Set to do. */
  lemma GivenUpUnpaced(b: Books, d: Books, now: nat, wait: nat)
    requires Completed(Attributes(b.vals), b, Attributes(d.vals), d, 2, now, wait)
    requires ValOf(b.vals, 2) == Val([], [5]) && b.gets == map[2 := PendingGet(0, 1)] && b.sets == map[2 := false] &&
             b.rearm == map[2 := 3]
    ensures NeedsSet(Attributes(d.vals), 2) && 2 !in d.floor
  {
    hide Group;
    OneChildGroup(GetRule);
  }

  /** A single-frame Set completes, the child has a Set to do, and nothing paces it. */
  method GiveUpSkipsPacing() returns (r: Resolver)
    ensures r.Valid() && NeedsSet(r.A(), 2) && 2 !in r.floor && 2 !in r.cooldown
  {
    hide Whole, SlotOk, Orderly, OneChild, OneType, NoClaim, Completed, NeedsSet, Nudged;
    r := OvertakingGet();
    ghost var b := r.B();
    r.CompletionCall(2);
    GivenUpUnpaced(b, r.B(), r.clock, r.retryTimeout);
    r.SetsArePaced(2);
  }

  // -- A give-up that forgets accepted Gets -----------------------------------------------

  /** A type with a Get rule alone. */
  function GetOnly(): Book { Book(map[7 := 0], {(0, 7)}, map[0 := Kind(false, true)], map[]) }

  /** A byte is read as a number. */
  function Number(t: Typ, v: seq<Byte>): real { if |v| == 1 then v[0] as real else 0.0 }

  ghost function Readable(vals: Values): Attrs { Attrs(GetOnly(), Number, 1, OneChild(), vals) }

  /** The retry count is 1, the child asks for 3, and its Get was accepted `k` times and is under way. */
  ghost predicate Reading(r: Resolver, k: nat)
    reads r, r.slot
  {
    && Pending(r, k) && r.slot.due == multiset{}
    && r.slot.state == Executing(GetRule) && r.slot.pending == 2 && r.stack == [Entry(1, 1)]
  }

  /** The entry of the child after `k` accepted Gets. */
  ghost predicate Pending(r: Resolver, k: nat)
    reads r, r.slot
  {
    && r.Valid() && Placed(r) && !r.walking && r.book == GetOnly() && r.numberOf == Number && r.retries == 1 &&
       r.retryTimeout == 10_000
    && r.rearm == map[] && r.vals == map[2 := Val([], [3])]
    && 2 in r.pendingGet && r.pendingGet[2].count == k && 2 in r.tally.tries && r.tally.tries[2] == Tries(k, 0)
  }

  /** Nothing else is on the way. */
  ghost predicate Alone(r: Resolver)
    reads r
  {
    && r.queue == [] && !r.scanRequested && r.resumeTimer == None && r.listeners == {}
    && r.pendingSet == map[] && r.cooldown == map[] && r.pendingGet.Keys == {2}
  }

  /** The Get of the child runs, for the first time or again when its time has come. */
  lemma ReadTaken(b: Books, clock: nat, k: nat)
    requires b.vals == map[2 := Val([], [3])]
    requires k == 0 ==> b.gets == map[]
    requires k > 0 ==>
               k < 3 && 2 in b.gets && b.gets[2].count == k && 0 < b.gets[2].timeout <= clock && 2 in b.tries
    ensures var a := Readable(b.vals);
            NeedsGet(a, 2) && Taken(AttemptStatusOf(a, b.gets, b.sets, b.cooldown, clock, true, 2, Accepted(false)))
    ensures var c := TakenBooks(b, GetRule, 2, false);
            2 in c.gets && c.gets[2].count == k + 1 && 2 in c.tries && c.vals == b.vals && c.rearm == b.rearm &&
            c.tries[2] == if k == 0 then Tries(1, 0) else b.tries[2].(runs := b.tries[2].runs + 1)
    ensures var c := TakenBooks(b, GetRule, 2, false);
            c.sets == b.sets && c.cooldown == b.cooldown && c.gets.Keys == b.gets.Keys + {2}
  {
    var a := Readable(b.vals);
    ThreeTries(b.vals);
    if k == 0 { assert !Queued(a, b.gets, b.sets, 2, GetRule); }
  }

  lemma ThreeTries(vals: Values)
    requires ValOf(vals, 2) == Val([], [3])
    ensures Limit(Readable(vals), 2) == 3 && NeedsGet(Readable(vals), 2)
  {
  }

  /** The first scan reaches the child and sends the frame of its Get. */
  method ReadFrame() returns (r: Resolver)
    ensures fresh(r) && fresh(r.slot) && Reading(r, 1) && Alone(r)
  {
    hide Whole, SlotOk, Orderly, CallsFirst, OneChild, GetOnly, AttemptStatusOf, TakenBooks, NeedsGet;
    r := FirstScan(Val([], [3]), GetOnly(), Number);
    PassRoot(r);
    ReadTaken(r.B(), r.clock, 0);
    PassChild(r, GetRule);
  }

  /** A completion before the last attempt: the report is awaited. */
  lemma ReportAwaited(b: Books, d: Books, now: nat, k: nat)
    requires Completed(Readable(b.vals), b, Readable(d.vals), d, 2, now, 10_000) && b.rearm == map[]
    requires b.vals == map[2 := Val([], [3])] && 2 in b.gets && b.gets[2].count == k < 3
    ensures d.vals == b.vals && d.tries == b.tries && d.rearm == map[]
    ensures 2 in d.gets && d.gets[2] == PendingGet(now + 10_000, k)
  {
    ThreeTries(b.vals);
  }

  method SendFrame(r: Resolver, ghost k: nat)
    requires Reading(r, k)
    modifies r, r.slot
    ensures Pending(r, k) && r.slot.state == Idle && r.slot.due == multiset{2} && r.stack == [Entry(1, 1)]
    ensures old(Alone(r)) ==> Alone(r)
  {
    hide Whole, SlotOk, Orderly, OneChild, GetOnly, NoClaim, Arrived, Number;
    r.SendDataComplete(SendOk, 2, GetRule);
  }

  /** The frame is sent, and the report does not come. */
  method AwaitReport(r: Resolver, ghost k: nat)
    requires Reading(r, k) && k < 3
    modifies r, r.slot
    ensures Waiting(r, k) && r.pendingGet[2].timeout == r.clock + 10_000
  {
    hide Whole, SlotOk, Orderly, OneChild, GetOnly, NoClaim, Completed, Number, Nudged;
    SendFrame(r, k);
    ghost var b, s := r.B(), r.S();
    r.CompletionCall(2);
    ReportAwaited(b, r.B(), r.clock, k);
    OneEntry(r.W(), s, r.S());
  }

  /** Nothing is under way, and the scan is at the child or starts over. */
  ghost predicate Waiting(r: Resolver, k: nat)
    reads r, r.slot
  {
    Pending(r, k) && r.slot.state == Idle && r.slot.due == multiset{} &&
        (r.stack == [Entry(1, 1)] || r.stack == [Entry(1, 0)])
  }

  lemma OneEntry(w: World, a: Sched, b: Sched)
    requires Nudged(w, true, a, b) && a.stack == [Entry(1, 1)]
    ensures b.stack == [Entry(1, 1)] || b.stack == [Entry(1, 0)]
  {
  }

  /** The deadline passes, the child is scanned again for a listener, and its Get is sent again. */
  method ReadAgain(r: Resolver, ghost k: nat)
    requires Reading(r, k) && 0 < k < 3
    modifies r, r.slot
    ensures Reading(r, k + 1)
  {
    hide Whole, SlotOk, Orderly, OneChild, GetOnly, Number, CallsFirst, AttemptStatusOf, TakenBooks, NeedsGet;
    AwaitReport(r, k);
    AskForChild(r, k);
    ScanAgain(r);
    ReadTaken(r.B(), r.clock, k);
    PassChild(r, GetRule);
  }

  method AskForChild(r: Resolver, ghost k: nat)
    requires Waiting(r, k) && r.pendingGet[2].timeout == r.clock + 10_000
    modifies r
    ensures Waiting(r, k) && r.pendingGet[2].timeout == r.clock && r.clock > 0 && r.stack == [Entry(1, 0)] &&
            Next in r.queue
  {
    hide Whole, SlotOk, Orderly, OneChild, GetOnly, Number, AheadOf, Nudged;
    r.Tick(10_000);
    ghost var s := r.S();
    OneChildKind();
    r.SetListener(2);
    SameEntry(r.W(), s, r.S());
    r.AskedServed();
    ChildBehind(r.W());
    WholeGood(r.W(), r.E(), r.walking);
    ChildUnderItself(r.W());
    r.NoLostWakeUp();
  }

  lemma SameEntry(w: World, a: Sched, b: Sched)
    requires Nudged(w, false, a, b) && (a.stack == [Entry(1, 1)] || a.stack == [Entry(1, 0)])
    ensures b.stack == [Entry(1, 1)] || b.stack == [Entry(1, 0)]
  {
  }

  lemma ChildUnderItself(w: World)
    requires 2 in w.h && Good(w)
    ensures 2 in Subtree(w, 2)
  {
    UnderStep(w, 2);
  }

  /** The last completion gives up: the same entry now has count 1. */
  lemma ThreeForgotten(b: Books, d: Books, now: nat)
    requires Completed(Readable(b.vals), b, Readable(d.vals), d, 2, now, 10_000) && b.rearm == map[]
    requires b.vals == map[2 := Val([], [3])] && 2 in b.gets && b.gets[2].count == 3 && 2 in b.tries &&
             b.tries[2] == Tries(3, 0)
    ensures 2 in d.gets && d.gets[2] == PendingGet(0, 1) && 2 in d.tries && d.tries[2] == Tries(3, 1)
  {
    ThreeTries(b.vals);
    GetOnlyGroup();
  }

  lemma GetOnlyGroup()
    ensures Group(GetOnly(), OneChild(), GetRule, 2) == {2}
  {
    var h := OneChild();
    assert Ancestor(h, 1, 0) == Some(1) && Ancestor(h, 2, 1) == Some(1);
    assert (0, 7) in GetOnly().inverted;
    assert GroupTypes(GetOnly(), GetRule, 7) == {7};
  }

  /** The retry count is 1 and the child asks for 3: after three accepted Gets the completion gives up, and the
      entry, which was never erased, has count 1. */
  method GiveUpForgetsGets() returns (r: Resolver)
    ensures r.Valid() && 2 in r.pendingGet && r.pendingGet[2].count == 1 && 2 in r.tally.tries &&
            r.tally.tries[2] == Tries(3, 1)
  {
    hide Pending;
    r := ReadFrame();
    ReadAgain(r, 1);
    ReadAgain(r, 2);
    LastCompletion(r);
  }

  method LastCompletion(r: Resolver)
    requires Reading(r, 3)
    modifies r, r.slot
    ensures r.Valid() && 2 in r.pendingGet && r.pendingGet[2].count == 1 && 2 in r.tally.tries &&
            r.tally.tries[2] == Tries(3, 1)
  {
    hide Whole, SlotOk, Orderly, OneChild, GetOnly, Number, NoClaim, Arrived, Completed, Nudged;
    SendFrame(r, 3);
    ghost var b := r.B();
    r.CompletionCall(2);
    ThreeForgotten(b, r.B(), r.clock);
  }

  // -- A deadline that nobody looks at ----------------------------------------------------

  /** The frame of the Get is sent and its completion call is owed, and the child is paused. */
  method PausedGet() returns (r: Resolver)
    ensures fresh(r) && fresh(r.slot) && r.Valid() && !r.walking && Alone(r) && r.slot.state == Idle &&
            r.slot.due == multiset{2}
    ensures r.A() == Readable(map[2 := Val([], [3])]) && r.root == 1 && r.paused == {2} && r.stack == [Entry(1, 1)]
    ensures r.rearm == map[] && 2 in r.pendingGet && r.pendingGet[2].count == 1 && r.retryTimeout == 10_000
  {
    hide Whole, SlotOk, Orderly, OneChild, GetOnly, Number;
    r := ReadFrame();
    SendFrame(r, 1);
    r.Pause(2);
  }

  /** The completion sets the deadline, and no timer, because the child is paused. */
  method PausedCompletion() returns (r: Resolver)
    ensures fresh(r) && fresh(r.slot) && r.Valid() && !r.walking && r.slot.state == Idle && r.slot.due == multiset{}
    ensures r.A() == Readable(map[2 := Val([], [3])]) && r.root == 1 && r.paused == {2} && r.resumeTimer == None
    ensures r.stack == [Entry(1, 1)] && r.queue == [Next] && !r.scanRequested
    ensures 2 in r.pendingGet && r.pendingGet[2].count == 1 && r.pendingGet[2].timeout > 0
  {
    hide Whole, SlotOk, Orderly, OneChild, GetOnly, Number, NoClaim, Completed, Nudged, AllSettled, Resolver.Quiet;
    r := PausedGet();
    ghost var b := r.B();
    QuietlyPaused(r);
    r.CompletionCall(2);
    ReportAwaited(b, r.B(), r.clock, 1);
  }

  lemma QuietlyPaused(r: Resolver)
    requires r.Valid() && Alone(r) && r.A() == Readable(map[2 := Val([], [3])]) && r.paused == {2}
    requires r.rearm == map[] && 2 in r.pendingGet && r.pendingGet[2].count == 1
    ensures r.Quiet(2)
  {
    hide Whole, SlotOk, Orderly, Limit;
    WholeGood(r.W(), r.E(), r.walking);
    UnderStep(r.W(), 2);
    ThreeTries(r.vals);
    OneChildKind();
    assert PausedAbove(r.W(), 2);
  }

  /** Then the child is resumed: its Get is to be tried again at its deadline, and no scan, event or timer will
      look at it. */
  method LostRetry() returns (r: Resolver)
    ensures r.Valid() && r.Retriable(2) && !r.Attended(2) && r.slot.state == Idle && r.slot.due == multiset{}
  {
    hide Whole, SlotOk, Orderly, GetOnly, Number, AheadOf, Limit, OneChild;
    r := PausedCompletion();
    OneChildKind();
    ThreeTries(r.vals);
    ChildBehind(r.W());
    r.Resume(2);
    assert !PausedAbove(r.W(), 2);
  }

  lemma OneChildKind()
    ensures 2 in OneChild() && forall rule :: HasRule(OneType(), OneChild()[2].typ, rule)
  {
  }
}
