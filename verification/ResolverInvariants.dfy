/** What every step of the attribute resolver keeps, stated over the parts of its state. */
module ResolverInvariants {
  import opened Common
  import opened StoreLedger
  import opened NodeHeap
  import opened ResolverWalk
  import opened ScanRequests
  import opened StoreRows
  import opened RuleGroups
  import opened RuleSlot
  import opened ResolverState

  /** The history of the scans, for the proofs. */
  datatype Walk = Walk(
    /** Nothing has disturbed the current scan: no request, no pause, no change of the tree. */
    calm: bool,
    /** Nodes that were requested and not considered since. */
    wanted: set<Ptr>,
    /** Those that were requested during the current scan, and that its stack is to lead to. */
    asked: set<Ptr>,
    /** The nodes whose listeners were told, in order. */
    told: seq<Ptr>,
    /** Each of them had nothing left to resolve in its subtree when it was told. */
    honest: bool,
    /** What the current scan has considered. */
    scanned: seq<Ptr>,
    /** What it was to consider when it began. */
    plan: seq<Ptr>)

  /** The scan: the stack, whether a scan is requested, the event queue, and the history. */
  datatype Sched = Sched(stack: Stack, scanRequested: bool, queue: seq<Event>, walk: Walk)

  /** `b` comes from `a` by scan requests and queued events: entries of the stack may start over,
      the queue grows, and a newly requested scan has its event. Unless `loud`, no listener is
      told. */
  ghost predicate Nudged(w: World, loud: bool, a: Sched, b: Sched) {
    && StartedOver(a.stack, b.stack)
    && Extends(loud, a.queue, b.queue)
    && (a.scanRequested ==> b.scanRequested)
    && (b.scanRequested && !a.scanRequested ==> Next in b.queue)
    && WalkOn(w, a.walk, b.walk, b.stack)
    && ToldOn(loud, a, b)
    && (b.walk.calm ==> b.stack == a.stack)
    && (b.scanRequested || (b.walk.wanted == a.walk.wanted && b.stack == a.stack))
  }

  /** What requests do to the history. */
  ghost predicate WalkOn(w: World, a: Walk, b: Walk, s: Stack) {
    && (b.calm ==> a.calm)
    && a.wanted <= b.wanted <= a.wanted + w.h.Keys
    && a.asked <= b.asked && NewlyAhead(w, a.asked, b.asked, s)
    && b.honest == a.honest && b.scanned == a.scanned && b.plan == a.plan
  }

  /** The nodes of the WATCH events. */
  function Watches(queue: seq<Event>): seq<Ptr> {
    if queue == [] then []
    else
      var last := queue[|queue| - 1];
      Watches(queue[..|queue| - 1]) + if last.Watch? then [last.node] else []
  }

  /** The new WATCH events are of the nodes that were told since. */
  ghost predicate ToldOn(loud: bool, a: Sched, b: Sched) {
    a.walk.told <= b.walk.told && Watches(b.queue) == Watches(a.queue) + b.walk.told[|a.walk.told|..] &&
        (loud || b.walk.told == a.walk.told)
  }

  /** The WATCH events in the queue are of the nodes that were told last, and every telling was true. */
  ghost predicate Honest(s: Sched) {
    var n := |Watches(s.queue)|;
    s.walk.honest && n <= |s.walk.told| && s.walk.told[|s.walk.told| - n..] == Watches(s.queue)
  }

  lemma WatchesMore(queue: seq<Event>, e: Event)
    ensures Watches(queue + [e]) == Watches(queue) + if e.Watch? then [e.node] else []
  {
    assert (queue + [e])[..|queue|] == queue;
  }

  lemma {:induction false} WatchesPop(queue: seq<Event>)
    requires queue != []
    ensures Watches(queue) == (if queue[0].Watch? then [queue[0].node] else []) + Watches(queue[1..])
    decreases |queue|
  {
    var n := |queue| - 1;
    if n > 0 {
      WatchesPop(queue[..n]);
      assert queue[..n][1..] == queue[1..][..n - 1];
      assert queue[1..][|queue[1..]| - 1] == queue[n];
    } else {
      assert queue[..0] == [] && queue[1..] == [];
    }
  }

  lemma ToldTrans(l: bool, m: bool, a: Sched, b: Sched, c: Sched)
    requires ToldOn(l, a, b) && ToldOn(m, b, c)
    ensures ToldOn(l || m, a, c)
  {
    assert c.walk.told[|a.walk.told|..] == b.walk.told[|a.walk.told|..] + c.walk.told[|b.walk.told|..];
  }

  lemma ToldHonest(l: bool, a: Sched, b: Sched)
    requires ToldOn(l, a, b) && Honest(a) && b.walk.honest == a.walk.honest
    ensures Honest(b)
  {
    var n, m := |Watches(a.queue)|, |a.walk.told|;
    assert b.walk.told == a.walk.told + b.walk.told[m..];
    assert b.walk.told[|b.walk.told| - |Watches(b.queue)|..] == a.walk.told[m - n..] + b.walk.told[m..];
  }

  /** The queue gets an event that tells nobody. */
  lemma ToldNobody(s: Sched, e: Event)
    requires !e.Watch?
    ensures ToldOn(false, s, s.(queue := s.queue + [e]))
    ensures Honest(s) ==> Honest(s.(queue := s.queue + [e]))
  {
    WatchesMore(s.queue, e);
  }

  /** The first event of the queue is handled. */
  lemma HonestPop(s: Sched)
    requires Honest(s) && s.queue != []
    ensures Honest(s.(queue := s.queue[1..]))
  {
    WatchesPop(s.queue);
  }

  /** The same nodes, and every index as before or 0. */
  ghost predicate StartedOver(a: Stack, b: Stack) {
    |a| == |b| && forall i :: 0 <= i < |a| ==> b[i] == a[i] || b[i] == Entry(a[i].node, 0)
  }

  /** What is newly asked for is ahead. */
  ghost predicate NewlyAhead(w: World, before: set<Ptr>, after: set<Ptr>, s: Stack) {
    forall q :: q in after && q !in before ==> AheadOf(w, s, q)
  }

  /** Starting over only adds to what is ahead. */
  lemma StartedOverAhead(w: World, a: Stack, b: Stack, q: Ptr)
    requires StartedOver(a, b) && AheadOf(w, a, q)
    ensures AheadOf(w, b, q)
  {
    var k :| 0 <= k < |a| && Ahead(w, a[k], q);
    if b[k] != a[k] {
      ResetKeepsAhead(w, a, k, q);
      assert Ahead(w, b[k], q);
    }
  }

  lemma StartedOverTrans(a: Stack, b: Stack, c: Stack)
    requires StartedOver(a, b) && StartedOver(b, c)
    ensures StartedOver(a, c)
  {
    forall i | 0 <= i < |a| ensures c[i] == a[i] || c[i] == Entry(a[i].node, 0) {
      assert b[i].node == a[i].node;
    }
  }

  ghost predicate Extends(loud: bool, a: seq<Event>, b: seq<Event>) {
    |a| <= |b| && b[..|a|] == a && (loud || forall i :: |a| <= i < |b| ==> !b[i].Watch?)
  }

  lemma ExtendsTrans(l: bool, m: bool, a: seq<Event>, b: seq<Event>, c: seq<Event>)
    requires Extends(l, a, b) && Extends(m, b, c)
    ensures Extends(l || m, a, c)
  {
    assert c[..|a|] == b[..|a|];
    forall i | |a| <= i < |c| && !(l || m) ensures !c[i].Watch? {
      if i < |b| { assert c[i] == b[i]; }
    }
  }

  lemma NudgedTrans(w: World, l: bool, m: bool, a: Sched, b: Sched, c: Sched)
    requires Nudged(w, l, a, b) && Nudged(w, m, b, c)
    ensures Nudged(w, l || m, a, c)
  {
    hide AheadOf, StartedOver, ToldOn;
    StartedOverTrans(a.stack, b.stack, c.stack);
    ExtendsTrans(l, m, a.queue, b.queue, c.queue);
    ToldTrans(l, m, a, b, c);
    if Next in b.queue { NextStays(m, b.queue, c.queue); }
    forall q | q in c.walk.asked && q !in a.walk.asked ensures AheadOf(w, c.stack, q) {
      if q in b.walk.asked { StartedOverAhead(w, b.stack, c.stack, q); }
    }
  }

  lemma NextStays(l: bool, a: seq<Event>, b: seq<Event>)
    requires Extends(l, a, b) && Next in a
    ensures Next in b
  {
    var i :| 0 <= i < |a| && a[i] == Next;
    assert b[..|a|][i] == Next && b[i] == Next;
  }

  lemma NudgedNot(w: World, a: Sched)
    ensures Nudged(w, false, a, a)
  {
  }

  lemma NudgedIsLoud(w: World, a: Sched)
    ensures Nudged(w, true, a, a)
  {
  }

  ghost function Subtree(w: World, p: Ptr): set<Ptr> {
    set q | q in w.h && Under(w.h, w.lev, p, q)
  }

  /** The scan after a request for `p` that left this stack. The scan is asked for the whole subtree. */
  ghost function Requested(w: World, a: Sched, stack: Stack, p: Ptr): Sched {
    Sched(stack, true, if a.scanRequested then a.queue else a.queue + [Next],
          a.walk.(calm := a.walk.calm && a.stack == [],
                  wanted := if p in w.h then a.walk.wanted + {p} else a.walk.wanted,
                  asked := a.walk.asked + set q | q in Subtree(w, p) && AheadOf(w, stack, q)))
  }

  /** A scan request: the stack may start over at one entry, and the event is queued once. */
  lemma RequestNudges(w: World, a: Sched, stack: Stack, p: Ptr)
    requires StartedOver(a.stack, stack)
    ensures Nudged(w, false, a, Requested(w, a, stack, p))
  {
    hide AheadOf;
    ToldNobody(a, Next);
    if !a.scanRequested { assert (a.queue + [Next])[|a.queue|] == Next; }
  }

  // -- The wake-up invariant --------------------------------------------------------------

  /** No wake-up is lost: a requested scan that has not begun has an event, and a scan that has begun
      has an event, or the slot is claimed, or a completion call is owed, or the walk is running. */
  ghost predicate Awake(s: Sched, claimed: bool, owed: bool, walking: bool) {
    && (s.scanRequested && s.stack == [] ==> Next in s.queue || walking)
    && (s.stack != [] ==> Next in s.queue || claimed || owed || walking)
  }

  lemma NudgedAwake(w: World, l: bool, a: Sched, b: Sched, claimed: bool, owed: bool, walking: bool)
    requires Nudged(w, l, a, b) && Awake(a, claimed, owed, walking)
    ensures Awake(b, claimed, owed, walking)
  {
    if Next in a.queue { NextStays(l, a.queue, b.queue); }
  }

  // -- Requests and undisturbed scans -----------------------------------------------------

  /** A requested node that has not been considered since is ahead of the walk, or a scan from the
      top is requested; and what was asked of the current stack is ahead of it in any case. */
  ghost predicate Promised(w: World, s: Sched) {
    && s.walk.wanted <= w.h.Keys && (s.scanRequested || forall q :: q in s.walk.wanted ==> AheadOf(w, s.stack, q))
    && AllAhead(w, s.walk.asked, s.stack)
  }

  ghost predicate AllAhead(w: World, asked: set<Ptr>, s: Stack) {
    forall q :: q in asked ==> AheadOf(w, s, q)
  }

  /** An undisturbed scan has considered a part of its plan, and the stack leads to the rest. */
  ghost predicate OnPlan(w: World, s: Sched)
    requires Good(w)
  {
    s.walk.calm ==> s.walk.scanned + Remaining(w, s.stack) == s.walk.plan
  }

  ghost predicate Rooted(w: World, s: Sched) {
    s.stack != [] ==> s.stack[0].node == w.root
  }

  lemma NudgedScan(w: World, l: bool, a: Sched, b: Sched)
    requires Good(w) && Nudged(w, l, a, b) && Promised(w, a) && OnPlan(w, a) && Rooted(w, a)
    ensures Promised(w, b) && OnPlan(w, b) && Rooted(w, b)
  {
    hide Remaining, AheadOf, Good;
    forall q | q in b.walk.asked ensures AheadOf(w, b.stack, q) {
      if q in a.walk.asked { StartedOverAhead(w, a.stack, b.stack, q); }
    }
  }

  /** A pass of the walk considers the next node of the plan. */
  lemma PassScan(w: World, a: Sched, stack: Stack, hit: Option<Ptr>)
    requires Good(w) && Promised(w, a) && OnPlan(w, a) && Rooted(w, a) && a.stack != []
    requires Remaining(w, a.stack) == (if hit.Some? then [hit.value] else []) + Remaining(w, stack)
    requires stack == a.stack[..|a.stack| - 1] ||
             (|stack| == |a.stack| + 1 && Nodes(stack)[..|a.stack|] == Nodes(a.stack))
    ensures var b := Passed(w, a, stack, hit); Promised(w, b) && Rooted(w, b) && OnPlan(w, b)
  {
    hide Remaining, AheadOf, Good;
    PassOnPlan(w, a, stack, hit);
    if stack != [] && |stack| == |a.stack| + 1 { assert Nodes(stack)[..|a.stack|][0] == Nodes(stack)[0]; }
  }

  /** What a pass neither considers nor cuts off stays ahead of the stack. */
  lemma PassAhead(w: World, s: Stack, next: Stack, hit: Option<Ptr>, q: Ptr)
    requires Good(w) && Remaining(w, s) == (if hit.Some? then [hit.value] else []) + Remaining(w, next)
    requires AheadOf(w, s, q) && hit != Some(q) && !Skipped(w, q)
    ensures AheadOf(w, next, q)
  {
    hide Remaining, AheadOf, Good, Skipped;
    RemainingMembers(w, s, q);
    RemainingMembers(w, next, q);
  }

  lemma PassOnPlan(w: World, a: Sched, stack: Stack, hit: Option<Ptr>)
    requires Good(w) && OnPlan(w, a) && Remaining(w, a.stack) == (if hit.Some? then [hit.value] else []) +
             Remaining(w, stack)
    ensures OnPlan(w, Passed(w, a, stack, hit))
  {
    hide Remaining, Good, AheadOf;
  }

  /** What a pass leaves requested: not the node it considers, and not what the stack no longer leads to. */
  ghost function StillAhead(w: World, wanted: set<Ptr>, stack: Stack, hit: Option<Ptr>): set<Ptr> {
    set q | q in wanted && hit != Some(q) && AheadOf(w, stack, q)
  }

  /** The scan after a pass that left this stack and considered this node, if any. */
  ghost function Passed(w: World, a: Sched, stack: Stack, hit: Option<Ptr>): Sched {
    var considered := if hit.Some? then {hit.value} else {};
    a.(stack := stack,
       walk := a.walk.(wanted := if a.scanRequested then a.walk.wanted - considered
                                 else StillAhead(w, a.walk.wanted, stack, hit),
                       asked := StillAhead(w, a.walk.asked, stack, hit),
                       scanned := if hit.Some? then a.walk.scanned + [hit.value] else a.walk.scanned))
  }

  /** The scan that begins at the root. */
  ghost function Begun(w: World, s: Sched): Sched {
    s.(stack := [Entry(w.root, 0)], scanRequested := false,
        walk := s.walk.(calm := true, scanned := [], plan := PlanOf(w)))
  }

  /** A change of the tree or of the pauses under a scan. */
  ghost function Disturb(s: Sched): Sched {
    s.(walk := s.walk.(calm := s.walk.calm && s.stack == []))
  }

  /** A scan from the top has every node ahead. */
  lemma TopScan(w: World, s: Sched)
    requires Good(w) && Promised(w, s) && s.stack == []
    ensures var top := Begun(w, s); Promised(w, top) && Rooted(w, top) && OnPlan(w, top)
  {
    hide Remaining;
    var top: Stack := [Entry(w.root, 0)];
    forall q | q in s.walk.wanted ensures AheadOf(w, top, q) {
      UnderRoot(w.h, w.root, w.lev, w.n, q);
      if q != w.root { var j := UnderDown(w.h, w.root, w.lev, w.n, w.root, q); }
      assert Ahead(w, top[0], q);
    }
    NothingAhead(w, s);
    RootAhead(w);
  }

  /** An empty stack leads to nothing. */
  lemma NothingAhead(w: World, s: Sched)
    requires Promised(w, s) && s.stack == []
    ensures s.walk.asked == {}
  {
    assert forall q :: !AheadOf(w, s.stack, q);
  }

  lemma PauseScan(w: World, paused: set<Ptr>, s: Sched)
    requires Good(w) && Promised(w, s) && OnPlan(w, s) && Rooted(w, s)
    ensures var v, t := w.(paused := paused), Disturb(s);
            Promised(v, t) && OnPlan(v, t) && Rooted(v, t)
  {
    hide AheadOf;
    var v := w.(paused := paused);
    forall q | (q in s.walk.wanted && !s.scanRequested) || q in s.walk.asked ensures AheadOf(v, s.stack, q) {
      assert AheadOf(w, s.stack, q);
      PauseKeepsAhead(w, paused, s.stack, q);
    }
  }

  // -- The pending maps -------------------------------------------------------------------

  /** Entries may be missing, and none is new or different. */
  ghost predicate Less<T>(a: map<Ptr, T>, b: map<Ptr, T>) {
    forall p :: p in b ==> p in a && b[p] == a[p]
  }

  lemma LessTrans<T>(a: map<Ptr, T>, b: map<Ptr, T>, c: map<Ptr, T>)
    requires Less(a, b) && Less(b, c)
    ensures Less(a, c)
  {
  }

  lemma LessDrop<T>(a: map<Ptr, T>, p: Ptr)
    ensures Less(a, a) && Less(a, a - {p})
  {
  }

  /** The accepted Gets of a pending entry since it was made, and how often it was given up since. */
  datatype Tries = Tries(runs: nat, ups: nat)

  /** The tries of every pending entry, the largest retry limit that was in force, and the configured one. */
  datatype Tally = Tally(tries: map<Ptr, Tries>, highest: nat, base: nat)

  /** What a number of give-ups may have taken from the count: each sets it to the configured limit. */
  function Forgiven(ups: nat, highest: nat, base: nat): nat
    requires base <= highest
  {
    ups * (Max(1, highest) - base)
  }

  /** The accepted Gets exceed the count by no more than the give-ups took from it, and the count does not
      exceed the largest retry limit so far, or 1. */
  predicate Within(g: PendingGet, t: Tries, highest: nat, base: nat)
    requires base <= highest
  {
    t.runs <= g.count + Forgiven(t.ups, highest, base) && g.count <= Max(1, highest)
  }

  /** Retry bound, for every pending Get. */
  ghost predicate Bounded(gets: Gets, tally: Tally) {
    tally.base <= tally.highest <= 255 &&
    forall p {:trigger gets[p]} :: p in gets ==>
      p in tally.tries && Within(gets[p], tally.tries[p], tally.highest, tally.base)
  }

  lemma WithinHigher(g: PendingGet, t: Tries, highest: nat, higher: nat, base: nat)
    requires base <= highest <= higher && Within(g, t, highest, base)
    ensures Within(g, t, higher, base)
  {
    ForgivenMore(t.ups, highest, higher, base);
  }

  lemma {:induction false} ForgivenMore(ups: nat, highest: nat, higher: nat, base: nat)
    requires base <= highest <= higher
    ensures Forgiven(ups, highest, base) <= Forgiven(ups, higher, base)
    ensures Forgiven(ups + 1, highest, base) == Forgiven(ups, highest, base) + Max(1, highest) - base
  {
    if ups > 0 {
      ForgivenMore(ups - 1, highest, higher, base);
      ForgivenMore(ups - 1, higher, higher, base);
    }
  }

  /** A give-up that keeps the entry takes no more from the count than the count was above the configured
      limit. */
  lemma WithinGivenUp(g: PendingGet, t: Tries, highest: nat, base: nat)
    requires base <= highest && Within(g, t, highest, base)
    ensures Within(PendingGet(0, base), t.(ups := t.ups + 1), highest, base)
  {
    ForgivenMore(t.ups, highest, highest, base);
  }

  lemma BoundedLess(gets: Gets, less: Gets, tally: Tally)
    requires Bounded(gets, tally) && Less(gets, less)
    ensures Bounded(less, tally)
  {
    hide Within;
  }

  lemma BoundedMore(gets: Gets, tally: Tally, p: Ptr, g: PendingGet, t: Tries, high: nat)
    requires Bounded(gets, tally) && tally.highest <= high <= 255 && Within(g, t, high, tally.base)
    ensures Bounded(gets[p := g], Tally(tally.tries[p := t], high, tally.base))
  {
    hide Within;
    forall q | q in gets && q != p ensures Within(gets[q], tally.tries[q], high, tally.base) {
      WithinHigher(gets[q], tally.tries[q], tally.highest, high, tally.base);
    }
  }

  lemma BoundedTimeout(gets: Gets, tally: Tally, p: Ptr, t: nat)
    requires Bounded(gets, tally) && p in gets
    ensures Bounded(gets[p := gets[p].(timeout := t)], tally)
  {
  }

  /** A node is among the pending Sets only while it holds the slot for a Set rule, or its completion
      call is owed. */
  ghost predicate InFlight(sets: map<Ptr, bool>, state: State, pending: Ptr, due: multiset<Ptr>) {
    forall p {:trigger p in sets} :: p in sets ==> (p == pending && state == Executing(SetRule)) || p in due
  }

  /** With the slot free, every pending Set has its completion call owed. */
  lemma InFlightFree(sets: map<Ptr, bool>, less: map<Ptr, bool>, p: Ptr, due: multiset<Ptr>, state: State, q: Ptr)
    requires InFlight(sets, Idle, p, due) && Less(sets, less)
    ensures InFlight(less, state, q, due)
  {
  }

  lemma PacingGate(clock: nat, cooldown: Times, floor: Times, p: Ptr)
    requires Pacing(clock, cooldown, floor) && (p in cooldown ==> cooldown[p] <= clock)
    ensures p in floor ==> floor[p] <= clock
    ensures Pacing(clock, cooldown - {p}, floor)
  {
  }

  /** Set pacing: every cooldown runs until the earliest time that its node may be set again, and before
      that time it is running. */
  ghost predicate Pacing(clock: nat, cooldown: Times, floor: Times) {
    Less(floor, cooldown) && forall p {:trigger p in floor} :: p in floor && clock < floor[p] ==> p in cooldown
  }

  lemma PacingDrop(clock: nat, cooldown: Times, floor: Times, p: Ptr)
    requires Pacing(clock, cooldown, floor)
    ensures Pacing(clock, cooldown - {p}, floor - {p})
  {
  }

  /** A cooldown starts. */
  lemma PacingStart(clock: nat, cooldown: Times, floor: Times, p: Ptr, t: nat)
    requires Pacing(clock, cooldown, floor)
    ensures Pacing(clock, cooldown[p := t], floor[p := t])
  {
  }

  lemma PacingExpire(clock: nat, cooldown: Times, floor: Times, p: Ptr)
    requires Pacing(clock, cooldown, floor) && p in cooldown && cooldown[p] <= clock
    ensures Pacing(clock, cooldown - {p}, floor)
  {
  }

  lemma PacingLater(clock: nat, later: nat, cooldown: Times, floor: Times)
    requires Pacing(clock, cooldown, floor) && clock <= later
    ensures Pacing(later, cooldown, floor)
  {
  }

  // -- Deadlines --------------------------------------------------------------------------

  /** A deadline that has passed has its scan requested, and another one is not before `next`, where
      0 stands for no next deadline. */
  predicate Covered(t: nat, clock: nat, next: nat, scanRequested: bool) {
    if t <= clock then scanRequested else next != 0 && next <= t
  }

  /** A deadline that has passed has its scan requested, and for another one the last event sets the
      timer in time. */
  predicate Alarmed(t: nat, clock: nat, queue: seq<Event>, scanRequested: bool) {
    if t <= clock then scanRequested
    else queue != [] && queue[|queue| - 1].TimerSet? && clock + queue[|queue| - 1].delay <= t
  }

  lemma AlarmNudges(w: World, a: Sched, b: Sched, e: Event)
    requires Nudged(w, false, a, b) && !e.Watch?
    ensures Nudged(w, false, a, b.(queue := b.queue + [e]))
  {
    var c := b.(queue := b.queue + [e]);
    assert Extends(false, b.queue, c.queue);
    ExtendsTrans(false, false, a.queue, b.queue, c.queue);
    ToldNobody(b, e);
    ToldTrans(false, false, a, b, c);
    if Next in b.queue { NextStays(false, b.queue, c.queue); }
  }

  /** The scan after a completion: the listener of `p` is told or not, and a scan that is under way goes on. */
  ghost function Announced(s: Sched, p: Ptr, tell: bool): Sched {
    s.(queue := s.queue + (if tell then [Watch(p)] else []) + (if s.stack != [] then [Next] else []),
       walk := if tell then s.walk.(told := s.walk.told + [p]) else s.walk)
  }

  lemma TellNudges(w: World, s: Sched, p: Ptr, tell: bool)
    ensures Nudged(w, true, s, Announced(s, p, tell)) && (s.stack != [] ==> Next in Announced(s, p, tell).queue)
  {
    hide ToldOn;
    AnnouncedTells(s, p, tell);
    var b := Announced(s, p, tell);
    if s.stack != [] { assert b.queue[|b.queue| - 1] == Next; }
  }

  lemma AnnouncedTells(s: Sched, p: Ptr, tell: bool)
    ensures ToldOn(true, s, Announced(s, p, tell))
  {
    var m := s.(queue := s.queue + (if tell then [Watch(p)] else []),
                walk := if tell then s.walk.(told := s.walk.told + [p]) else s.walk);
    WatchesMore(s.queue, Watch(p));
    assert tell || m.queue == s.queue;
    assert m.walk.told[|s.walk.told|..] == if tell then [p] else [];
    assert ToldOn(true, s, m);
    hide ToldOn;
    if s.stack != [] {
      ToldNobody(m, Next);
      ToldTrans(true, false, s, m, Announced(s, p, tell));
    } else {
      assert Announced(s, p, tell).queue == m.queue;
    }
  }

  // -- What writing values does -----------------------------------------------------------

  datatype Desk = Desk(sched: Sched, gets: Gets, sets: map<Ptr, bool>, floor: Times)

  /** Scans are requested, and pending entries are dropped. */
  ghost predicate Tidied(w: World, a: Desk, b: Desk) {
    Nudged(w, false, a.sched, b.sched) && Less(a.gets, b.gets) && Less(a.sets, b.sets) && Less(a.floor, b.floor)
  }

  lemma TidiedNot(w: World, a: Desk)
    ensures Tidied(w, a, a)
  {
    NudgedNot(w, a.sched);
  }

  lemma TidiedTrans(w: World, a: Desk, b: Desk, c: Desk)
    requires Tidied(w, a, b) && Tidied(w, b, c)
    ensures Tidied(w, a, c)
  {
    NudgedTrans(w, false, false, a.sched, b.sched, c.sched);
  }

  lemma NudgedTidies(w: World, a: Desk, b: Desk)
    requires Nudged(w, false, a.sched, b.sched) && a.gets == b.gets && a.sets == b.sets && a.floor == b.floor
    ensures Tidied(w, a, b)
  {
  }

  lemma NudgedDropTidies(w: World, a: Desk, b: Desk)
    requires Nudged(w, false, a.sched, b.sched) && a.gets == b.gets && a.floor == b.floor && Less(a.sets, b.sets)
    ensures Tidied(w, a, b)
  {
  }

  lemma TidiedNoGets(w: World, a: Desk, b: Desk)
    requires Tidied(w, a, b)
    ensures Tidied(w, a.(gets := map[]), b.(gets := map[]))
    ensures Tidied(w, a.(gets := map[], floor := map[]), b.(gets := map[], floor := map[]))
    ensures Tidied(w, a.(floor := map[]), b.(floor := map[]))
  {
  }

  lemma TidiedLess(w: World, a: Desk, b: Desk)
    requires Tidied(w, a, b)
    ensures Nudged(w, false, a.sched, b.sched) && Less(a.gets, b.gets) && Less(a.sets, b.sets) && Less(a.floor, b.floor)
  {
  }

  lemma StillDropped(w: World, a: Desk, b: Desk, p: Ptr)
    requires Tidied(w, a, b)
    ensures p !in a.sets ==> p !in b.sets
    ensures p !in a.floor ==> p !in b.floor
  {
  }

  /** The listeners that the new events tell are exactly these. */
  ghost predicate TellsOf(told: set<Ptr>, a: seq<Event>, b: seq<Event>) {
    && |a| <= |b|
    && (forall i :: |a| <= i < |b| && b[i].Watch? ==> b[i].node in told)
    && (forall p :: p in told ==> exists i :: |a| <= i < |b| && b[i] == Watch(p))
  }

  lemma Tells(w: World, a: Sched, b: Sched, p: Ptr, told: bool)
    requires Nudged(w, false, a, b)
    ensures TellsOf(if told then {p} else {}, a.queue, b.queue + (if told then [Watch(p)] else []) + if b.stack != []
            then [Next] else [])
  {
    var c := b.queue + (if told then [Watch(p)] else []) + if b.stack != [] then [Next] else [];
    assert forall i :: 0 <= i < |b.queue| ==> c[i] == b.queue[i];
    if told { assert c[|b.queue|] == Watch(p); }
  }

  /** The bookkeeping of Gets and of the pacing of Sets is in order. */
  ghost predicate Orderly(clock: nat, cooldown: Times, floor: Times, gets: Gets, tally: Tally, retries: nat) {
    Pacing(clock, cooldown, floor) && Bounded(gets, tally) && tally.base == retries
  }

  // -- Executing a rule -------------------------------------------------------------------

  /** The state around an execution. */
  datatype Exec = Exec(sched: Sched, sets: map<Ptr, bool>, state: State, pending: Ptr, more: bool,
      due: multiset<Ptr>, executing: bool, paced: bool, log: seq<SlotEvent>)

  /** An execution of a rule for `p`. A frame that is taken claims the slot and changes nothing else
      here; otherwise the slot is as before. All completion calls of the execution are made. */
  ghost predicate Ran(w: World, rule: RuleType, p: Ptr, taken: bool, a: Exec, b: Exec) {
    && b.due == a.due && b.paced == a.paced && !b.executing
    && Less(a.sets, b.sets) && Nudged(w, true, a.sched, b.sched)
    && Executed(p, a.log, b.log)
    && (taken ==> b == a.(state := Executing(rule), pending := p, more := b.more, log := a.log + [Claimed(p)]))
    && (!taken ==> b.state == a.state && (b.state != Idle ==> b.pending == a.pending))
  }

  lemma RanNot(w: World, rule: RuleType, p: Ptr, a: Exec)
    requires !a.executing
    ensures Ran(w, rule, p, false, a, a)
  {
  }

  lemma RanOn(w: World, rule: RuleType, p: Ptr, taken: bool, a: Exec, b: Exec, c: Exec)
    requires Ran(w, rule, p, taken, a, b) && c == b.(sched := c.sched) && Nudged(w, false, b.sched, c.sched)
    requires taken ==> c.sched == b.sched
    ensures Ran(w, rule, p, taken, a, c)
  {
    NudgedTrans(w, true, false, a.sched, b.sched, c.sched);
  }

  lemma RanSets(w: World, rule: RuleType, p: Ptr, taken: bool, a: Exec, b: Exec)
    requires Ran(w, rule, p, taken, a, b)
    ensures taken ==> b.sets == a.sets
  {
  }

  /** An attempt to resolve a node, with a free slot before it: a rule is under way afterwards if and
      only if a frame was taken, and every pending Set is still accounted for. */
  ghost predicate Tried(w: World, p: Ptr, taken: bool, a: Exec, b: Exec) {
    && Executed(p, a.log, b.log)
    && b.due == a.due && b.paced == a.paced && !b.executing && Nudged(w, true, a.sched, b.sched)
    && InFlight(b.sets, b.state, b.pending, b.due) && (taken <==> b.state != Idle)
    && (taken ==> b.sched == a.sched && b.log == a.log + [Claimed(p)])
  }

  lemma TriedNot(w: World, p: Ptr, a: Exec)
    requires !a.executing && a.state == Idle && InFlight(a.sets, a.state, a.pending, a.due)
    ensures Tried(w, p, false, a, a)
  {
    NudgedIsLoud(w, a.sched);
  }

  lemma TriedGet(w: World, p: Ptr, taken: bool, a: Exec, b: Exec)
    requires Ran(w, GetRule, p, taken, a, b) && a.state == Idle && InFlight(a.sets, a.state, a.pending, a.due)
    ensures Tried(w, p, taken, a, b)
  {
    InFlightFree(a.sets, b.sets, a.pending, a.due, b.state, b.pending);
  }

  lemma TriedSet(w: World, p: Ptr, taken: bool, more: bool, a: Exec, b: Exec)
    requires a.state == Idle && InFlight(a.sets, a.state, a.pending, a.due)
    requires Ran(w, SetRule, p, taken, a, if taken then b.(sets := a.sets) else b)
    requires taken ==> b.sets == a.sets[p := more]
    ensures Tried(w, p, taken, a, b)
  {
    if !taken { InFlightFree(a.sets, b.sets, a.pending, a.due, b.state, b.pending); }
  }

  /** A completion after an attempt that took no frame. */
  lemma TriedOn(w: World, p: Ptr, a: Exec, b: Exec, c: Exec)
    requires Tried(w, p, false, a, b) && c == b.(sched := c.sched, sets := c.sets)
    requires Nudged(w, true, b.sched, c.sched) && Less(b.sets, c.sets)
    ensures Tried(w, p, false, a, c)
  {
    NudgedTrans(w, true, true, a.sched, b.sched, c.sched);
    InFlightFree(b.sets, c.sets, b.pending, b.due, c.state, c.pending);
  }

  /** The scan is where it should be. */
  ghost predicate Scanning(w: World, s: Sched) {
    Good(w) && Promised(w, s) && OnPlan(w, s) && Rooted(w, s)
  }

  lemma NudgedScanning(w: World, l: bool, a: Sched, b: Sched)
    requires Scanning(w, a) && Nudged(w, l, a, b)
    ensures Scanning(w, b) && (Honest(a) ==> Honest(b)) && a.walk.asked <= b.walk.asked
  {
    hide Good, Promised, Rooted, ToldOn, Honest;
    NudgedScan(w, l, a, b);
    if Honest(a) { ToldHonest(l, a, b); }
  }

  lemma TriedState(w: World, p: Ptr, taken: bool, a: Exec, b: Exec)
    requires Tried(w, p, taken, a, b)
    ensures taken <==> b.state != Idle
  {
  }

  lemma ScanningQueue(w: World, s: Sched, queue: seq<Event>)
    requires Scanning(w, s)
    ensures Scanning(w, s.(queue := queue))
  {
  }

  /** What a scan from the root is to consider: the whole pruned post-order. */
  ghost function PlanOf(w: World): (r: seq<Ptr>)
    ensures Good(w) ==> r == Pruned(w.h, w.paused, w.root, w.n + 1 - w.lev[w.root])
  {
    if Good(w) then RootAhead(w); Pruned(w.h, w.paused, w.root, w.n + 1 - w.lev[w.root]) else []
  }

  lemma ScanningTop(w: World, s: Sched)
    requires Scanning(w, s) && s.stack == []
    ensures Good(w)
    ensures Scanning(w, Begun(w, s))
  {
    hide Good, Remaining;
    TopScan(w, s);
    RootAhead(w);
  }

  lemma ScanningPass(w: World, a: Sched, stack: Stack, hit: Option<Ptr>)
    requires Scanning(w, a) && a.stack != []
    requires Remaining(w, a.stack) == (if hit.Some? then [hit.value] else []) + Remaining(w, stack)
    requires stack == a.stack[..|a.stack| - 1] ||
             (|stack| == |a.stack| + 1 && Nodes(stack)[..|a.stack|] == Nodes(a.stack))
    ensures Scanning(w, Passed(w, a, stack, hit))
  {
    hide Good, Remaining, Promised, Rooted;
    PassScan(w, a, stack, hit);
  }

  lemma ScanningPause(w: World, paused: set<Ptr>, s: Sched)
    requires Scanning(w, s)
    ensures Scanning(w.(paused := paused), Disturb(s))
  {
    hide Remaining, Promised, Rooted;
    PauseScan(w, paused, s);
  }

  lemma ScanningGood(w: World, s: Sched)
    requires Scanning(w, s)
    ensures Good(w)
  {
  }

  /** An undisturbed scan that has emptied its stack has considered its whole plan, and every request
      that no new scan will serve has been served. */
  lemma ScanComplete(w: World, s: Sched)
    requires Scanning(w, s) && s.stack == []
    ensures s.walk.calm ==> s.walk.scanned == s.walk.plan
    ensures !s.scanRequested ==> s.walk.wanted == {}
    ensures s.walk.asked == {}
  {
    NothingAhead(w, s);
    assert Remaining(w, []) == [];
    assert forall q :: !AheadOf(w, [], q);
  }

  // -- Everything together ----------------------------------------------------------------

  ghost predicate Ready(w: World, e: Exec) {
    && Scanning(w, e.sched)
    && InFlight(e.sets, e.state, e.pending, e.due)
    && e.paced && !e.executing && Honest(e.sched)
  }

  /** What holds between steps: the scan, the wake-up, the pending Sets and the pacing. While the walk
      is running the slot is free. */
  ghost predicate Whole(w: World, e: Exec, walking: bool) {
    && Ready(w, e)
    && Awake(e.sched, e.state != Idle, e.due != multiset{}, walking)
    && (walking ==> e.state == Idle)
  }

  /** The initial state. */
  lemma WholeAtFirst(w: World, e: Exec)
    requires Good(w) && e.sched == Sched([], true, [Next], Walk(true, {}, {}, [], true, [], []))
    requires e.sets == map[] && e.state == Idle && e.due == multiset{} && !e.executing && e.paced
    ensures Whole(w, e, false)
  {
    hide IsTree;
    assert Watches([Next]) == [];
    assert Remaining(w, []) == [];
  }

  lemma WholeParts(w: World, e: Exec, walking: bool)
    requires Whole(w, e, walking)
    ensures Good(w) && Scanning(w, e.sched) && Ready(w, e)
    ensures InFlight(e.sets, e.state, e.pending, e.due) && e.paced && !e.executing && (walking ==> e.state == Idle)
    ensures Awake(e.sched, e.state != Idle, e.due != multiset{}, walking)
  {
    ScanningGood(w, e.sched);
  }

  lemma WholeAsked(w: World, e: Exec, walking: bool)
    requires Whole(w, e, walking)
    ensures Good(w) && AllAhead(w, e.sched.walk.asked, e.sched.stack)
  {
    hide AllAhead;
  }

  lemma ReadyTried(w: World, p: Ptr, taken: bool, a: Exec, b: Exec)
    requires Ready(w, a) && Tried(w, p, taken, a, b)
    ensures Ready(w, b) && a.sched.walk.asked <= b.sched.walk.asked &&
            b.sched.walk.scanned == a.sched.walk.scanned && b.due == a.due && Executed(p, a.log, b.log)
    ensures taken ==> b.sched == a.sched && b.log == a.log + [Claimed(p)]
  {
    hide Scanning, InFlight;
    NudgedScanning(w, true, a.sched, b.sched);
  }

  lemma ReadyWalks(w: World, e: Exec)
    requires Ready(w, e) && e.state == Idle
    ensures Whole(w, e, true)
  {
  }

  /** The first event is taken from the queue. */
  lemma ReadyPop(w: World, e: Exec)
    requires Ready(w, e) && e.sched.queue != []
    ensures Ready(w, e.(sched := e.sched.(queue := e.sched.queue[1..])))
  {
    hide Scanning, Honest;
    HonestPop(e.sched);
    ScanningQueue(w, e.sched, e.sched.queue[1..]);
  }

  lemma ReadyTop(w: World, e: Exec)
    requires Ready(w, e) && e.sched.stack == []
    ensures Ready(w, e.(sched := Begun(w, e.sched)))
  {
    hide Scanning;
    ScanningTop(w, e.sched);
  }

  /** At the end of an event, a scan that was requested meanwhile gets its event. */
  lemma ReadyEnds(w: World, e: Exec)
    requires Ready(w, e) && (e.sched.stack == [] || Next in e.sched.queue || e.state != Idle)
    ensures var queue := if e.sched.stack == [] && e.sched.scanRequested then e.sched.queue + [Next] else e.sched.queue;
            Whole(w, e.(sched := e.sched.(queue := queue)), false)
  {
    hide Scanning;
    ScanningQueue(w, e.sched, e.sched.queue + [Next]);
  }

  /** A step that requests scans and drops pending Sets. */
  lemma WholeNudged(w: World, l: bool, a: Exec, b: Exec, walking: bool)
    requires Whole(w, a, walking) && b == a.(sched := b.sched, sets := b.sets)
    requires Nudged(w, l, a.sched, b.sched) && Less(a.sets, b.sets)
    ensures Whole(w, b, walking) && a.sched.walk.asked <= b.sched.walk.asked
  {
    hide Scanning, Nudged;
    NudgedScanning(w, l, a.sched, b.sched);
    NudgedAwake(w, l, a.sched, b.sched, a.state != Idle, a.due != multiset{}, walking);
  }

  /** The bottom of the stack is the root. */
  lemma NudgedRoot(w: World, e: Exec, s: Sched, walking: bool)
    requires Whole(w, e, walking) && Nudged(w, false, e.sched, s)
    ensures s.stack != [] ==> s.stack[0].node == w.root
  {
  }

  // -- Steps of the environment -----------------------------------------------------------

  /** A completion call is made. */
  lemma WholeCalled(w: World, a: Exec, b: Exec, p: Ptr)
    requires Whole(w, a, false) && b == a.(sched := b.sched, sets := b.sets, due := a.due - multiset{p}, log := b.log)
    requires Nudged(w, true, a.sched, b.sched) && Less(a.sets, b.sets) && p !in b.sets
    requires b.sched.stack != [] ==> Next in b.sched.queue
    ensures Whole(w, b, false) && a.sched.walk.asked <= b.sched.walk.asked
  {
    hide Scanning, Nudged;
    NudgedScanning(w, true, a.sched, b.sched);
    NudgedAwake(w, true, a.sched, b.sched, true, true, false);
    if Next !in b.sched.queue { NudgedAwake(w, true, a.sched, b.sched, a.state != Idle, a.due != multiset{}, false); }
  }

  /** The slot is freed, and a completion call is owed. */
  lemma WholeReleased(w: World, a: Exec, b: Exec, walking: bool)
    requires Whole(w, a, walking)
    requires b == a.(state := Idle, pending := NOBODY, due := a.due + multiset{a.pending}, log := b.log)
    ensures Whole(w, b, walking)
  {
    hide Scanning;
    assert a.pending in b.due;
  }

  lemma OrderlyLess(clock: nat, cooldown: Times, floor: Times, cooler: Times, lower: Times, gets: Gets, less: Gets,
      tally: Tally, retries: nat)
    requires Orderly(clock, cooldown, floor, gets, tally, retries) && Less(gets, less) && Pacing(clock, cooler, lower)
    ensures Orderly(clock, cooler, lower, less, tally, retries)
  {
    BoundedLess(gets, less, tally);
  }

  /** A step that writes values. */
  lemma WholeTidied(w: World, a: Exec, b: Exec, gets: Gets, less: Gets, clock: nat, cooldown: Times, floor: Times,
      cooler: Times, lower: Times,
                    tally: Tally, retries: nat)
    requires Whole(w, a, false) && b == a.(sched := b.sched, sets := b.sets)
    requires Orderly(clock, cooldown, floor, gets, tally, retries) && Pacing(clock, cooler, lower)
    requires Tidied(w, Desk(a.sched, gets, a.sets, floor), Desk(b.sched, less, b.sets, lower))
    ensures Whole(w, b, false) && a.sched.walk.asked <= b.sched.walk.asked &&
            Orderly(clock, cooler, lower, less, tally, retries)
  {
    hide Whole, Orderly, Nudged, Less, Pacing;
    OrderlyLess(clock, cooldown, floor, cooler, lower, gets, less, tally, retries);
    WholeNudged(w, false, a, b, false);
  }

  lemma Basics(w: World, e: Exec, walking: bool, clock: nat, cooldown: Times, floor: Times, gets: Gets, tally: Tally,
      retries: nat)
    requires Whole(w, e, walking) && Orderly(clock, cooldown, floor, gets, tally, retries)
    ensures Good(w) && Pacing(clock, cooldown, floor)
  {
    hide Pacing;
    WholeParts(w, e, walking);
  }

  ghost function Disturbed(e: Exec): Exec {
    e.(sched := Disturb(e.sched))
  }

  lemma WholePause(w: World, paused: set<Ptr>, e: Exec, walking: bool)
    requires Whole(w, e, walking)
    ensures Whole(w.(paused := paused), Disturbed(e), walking)
  {
    hide Scanning;
    ScanningPause(w, paused, e.sched);
  }

  /** Another event than NEXT is taken from the queue. */
  lemma WholePop(w: World, e: Exec)
    requires Whole(w, e, false) && e.sched.queue != [] && e.sched.queue[0] != Next
    ensures Whole(w, e.(sched := e.sched.(queue := e.sched.queue[1..])), false)
  {
    hide Scanning, Honest;
    ReadyPop(w, e);
    assert e.sched.queue == [e.sched.queue[0]] + e.sched.queue[1..];
  }

  lemma OrderlyDrop(clock: nat, cooldown: Times, floor: Times, gets: Gets, tally: Tally, retries: nat, p: Ptr)
    requires Orderly(clock, cooldown, floor, gets, tally, retries)
    ensures Orderly(clock, cooldown - {p}, floor - {p}, gets, tally, retries)
    ensures Orderly(clock, cooldown, floor, gets - {p}, tally, retries)
    ensures Orderly(clock, cooldown - {p}, floor - {p}, gets - {p}, tally, retries)
  {
    PacingDrop(clock, cooldown, floor, p);
    LessDrop(gets, p);
    BoundedLess(gets, gets - {p}, tally);
  }

  lemma OrderlyLater(clock: nat, later: nat, cooldown: Times, floor: Times, gets: Gets, tally: Tally, retries: nat)
    requires Orderly(clock, cooldown, floor, gets, tally, retries) && clock <= later
    ensures Orderly(later, cooldown, floor, gets, tally, retries)
  {
    PacingLater(clock, later, cooldown, floor);
  }

  lemma OrderlyExpire(clock: nat, cooldown: Times, floor: Times, gets: Gets, tally: Tally, retries: nat, p: Ptr)
    requires Orderly(clock, cooldown, floor, gets, tally, retries) && p in cooldown && cooldown[p] <= clock
    ensures Orderly(clock, cooldown - {p}, floor, gets, tally, retries)
  {
    PacingExpire(clock, cooldown, floor, p);
  }

  lemma WholeGood(w: World, e: Exec, walking: bool)
    requires Whole(w, e, walking)
    ensures Good(w)
  {
    WholeParts(w, e, walking);
  }

  /** The rule of a node is aborted and its completion call made at once. */
  lemma WholeAborted(w: World, a: Exec, b: Exec)
    requires Whole(w, a, false) && b == a.(sched := b.sched, sets := b.sets, state := Idle, pending := NOBODY,
             log := b.log)
    requires Nudged(w, true, a.sched, b.sched) && Less(a.sets, b.sets) && a.pending !in b.sets
    requires b.sched.stack != [] ==> Next in b.sched.queue
    ensures Whole(w, b, false) && a.sched.walk.asked <= b.sched.walk.asked
  {
    hide Scanning, Nudged;
    NudgedScanning(w, true, a.sched, b.sched);
    NudgedAwake(w, true, a.sched, b.sched, a.state != Idle, a.due != multiset{}, false);
  }

  // -- Changes of the tree ----------------------------------------------------------------

  /** What is still ahead after the deletion of child `d`, at place `j` of its parent. */
  ghost predicate KeptAhead(w: World, d: Ptr, j: nat, s: Stack, q: Ptr) {
    exists k :: 0 <= k < |s| && Ahead(w, s[k], q) && !MovedPast(w, d, j, s[k], q)
  }

  ghost function KeptWanted(w: World, d: Ptr, j: nat, s: Sched): set<Ptr> {
    set q | q in s.walk.wanted && q != d && (s.scanRequested || KeptAhead(w, d, j, s.stack, q))
  }

  ghost function KeptAsked(w: World, d: Ptr, j: nat, s: Sched): set<Ptr> {
    set q | q in s.walk.asked && q != d && KeptAhead(w, d, j, s.stack, q)
  }

  ghost function AfterShrink(w: World, d: Ptr, j: nat, s: Sched): Sched {
    s.(walk := s.walk.(calm := s.walk.calm && s.stack == [], wanted := KeptWanted(w, d, j, s),
        asked := KeptAsked(w, d, j, s)))
  }

  lemma KeptIsAhead(w: World, d: Ptr, j: nat, s: Stack, q: Ptr)
    requires Good(w) && d in w.h && d != w.root && w.h[d].children == [] && q != d && KeptAhead(w, d, j, s, q)
    requires var p := w.h[d].parent;
             p.Some? && p.value in w.h && j < |w.h[p.value].children| &&
             w.h[p.value].children[j] == d
    ensures AheadOf(Shrunk(w, d), s, q)
  {
    hide LinkedDown, LinkedUp, NoTwins, Levelled, Ahead, MovedPast, Removed, Under;
    var k :| 0 <= k < |s| && Ahead(w, s[k], q) && !MovedPast(w, d, j, s[k], q);
    AheadExists(w, s[k], q);
    DeletionKeepsAheadIff(w, d, j, s[k], q);
  }

  lemma AheadExists(w: World, e: Entry, q: Ptr)
    requires Good(w) && Ahead(w, e, q)
    ensures q in w.h
  {
    AheadUnder(w, e, q);
  }

  lemma ScanningShrunk(w: World, d: Ptr, j: nat, s: Sched)
    requires Scanning(w, s) && d in w.h && d != w.root && w.h[d].children == []
    requires var p := w.h[d].parent;
             p.Some? && p.value in w.h && j < |w.h[p.value].children| &&
             w.h[p.value].children[j] == d
    ensures Scanning(Shrunk(w, d), AfterShrink(w, d, j, s))
  {
    hide LinkedDown, LinkedUp, NoTwins, Levelled, Ahead, MovedPast, Removed, Under, Remaining, OnPlan;
    var v := Shrunk(w, d);
    RemovedLeafTree(w.h, w.root, w.lev, w.n, d);
    forall q | (q in KeptWanted(w, d, j, s) && !s.scanRequested) || q in KeptAsked(w, d, j, s)
        ensures AheadOf(v, s.stack, q) {
      KeptIsAhead(w, d, j, s.stack, q);
    }
    EmptyOnPlan(w, v, s, KeptWanted(w, d, j, s), KeptAsked(w, d, j, s));
    RemovedKeys(w.h, d);
  }

  lemma RemovedKeys(h: Heap, d: Ptr)
    ensures Removed(h, {d}).Keys == h.Keys - {d}
  {
  }

  lemma EmptyOnPlan(w: World, v: World, s: Sched, wanted: set<Ptr>, asked: set<Ptr>)
    requires Good(w) && Good(v) && OnPlan(w, s)
    ensures OnPlan(v, s.(walk := s.walk.(calm := s.walk.calm && s.stack == [], wanted := wanted, asked := asked)))
  {
    assert Remaining(w, []) == [] && Remaining(v, []) == [];
  }

  /** What is still ahead after a child of `p` is added. */
  ghost predicate GrownAhead(w: World, p: Ptr, s: Stack, q: Ptr) {
    exists k :: 0 <= k < |s| && Ahead(w, s[k], q) && !Outgrown(w, p, s[k], q)
  }

  ghost function GrownWanted(w: World, p: Ptr, s: Sched): set<Ptr> {
    set q | q in s.walk.wanted && (s.scanRequested || GrownAhead(w, p, s.stack, q))
  }

  ghost function GrownAsked(w: World, p: Ptr, s: Sched): set<Ptr> {
    set q | q in s.walk.asked && GrownAhead(w, p, s.stack, q)
  }

  ghost function AfterGrowth(w: World, p: Ptr, s: Sched): Sched {
    s.(walk := s.walk.(calm := s.walk.calm && s.stack == [], wanted := GrownWanted(w, p, s),
        asked := GrownAsked(w, p, s)))
  }

  lemma ScanningGrown(w: World, p: Ptr, c: Ptr, typ: nat, s: Sched)
    requires Scanning(w, s) && p in w.h && p in w.lev && c !in w.h
    ensures Scanning(Grown(w, p, c, typ), AfterGrowth(w, p, s))
  {
    hide LinkedDown, LinkedUp, NoTwins, Levelled;
    var v := Grown(w, p, c, typ);
    WithChildTree(w.h, w.root, w.lev, w.n, p, c, 0, typ);
    forall q | (q in GrownWanted(w, p, s) && !s.scanRequested) || q in GrownAsked(w, p, s)
        ensures AheadOf(v, s.stack, q) {
      var k :| 0 <= k < |s.stack| && Ahead(w, s.stack[k], q) && !Outgrown(w, p, s.stack[k], q);
      GrowthKeepsAheadIff(w, p, c, typ, s.stack[k], q);
    }
    EmptyOnPlan(w, v, s, GrownWanted(w, p, s), GrownAsked(w, p, s));
  }

  lemma WholeShrunk(w: World, d: Ptr, j: nat, e: Exec, walking: bool)
    requires Whole(w, e, walking) && d in w.h && d != w.root && w.h[d].children == []
    requires var p := w.h[d].parent;
             p.Some? && p.value in w.h && j < |w.h[p.value].children| &&
             w.h[p.value].children[j] == d
    ensures Whole(Shrunk(w, d), e.(sched := AfterShrink(w, d, j, e.sched)), walking)
  {
    hide Scanning;
    ScanningShrunk(w, d, j, e.sched);
  }

  lemma WholeGrown(w: World, p: Ptr, c: Ptr, typ: nat, e: Exec, walking: bool)
    requires Whole(w, e, walking) && p in w.h && p in w.lev && c !in w.h
    ensures Whole(Grown(w, p, c, typ), e.(sched := AfterGrowth(w, p, e.sched)), walking)
  {
    hide Scanning;
    ScanningGrown(w, p, c, typ, e.sched);
  }

  lemma NudgedBothTidies(w: World, a: Desk, b: Desk)
    requires Nudged(w, false, a.sched, b.sched) && Less(a.gets, b.gets) && Less(a.sets, b.sets) &&
             Less(a.floor, b.floor)
    ensures Tidied(w, a, b)
  {
  }

  lemma TidiedThenPaced(w: World, a: Desk, b: Desk, c: Desk)
    requires Tidied(w, a, b) && Nudged(w, false, b.sched, c.sched) && b.gets == c.gets && b.sets == c.sets
    ensures Tidied(w, a.(floor := map[]), c.(floor := map[]))
  {
    hide Nudged, Less;
    TidiedNoGets(w, a, b);
    NudgedTidies(w, b.(floor := map[]), c.(floor := map[]));
    TidiedTrans(w, a.(floor := map[]), b.(floor := map[]), c.(floor := map[]));
  }

  lemma TidiedTwice(w: World, a: Desk, b: Desk, c: Desk, tally: Tally)
    requires Tidied(w, a.(gets := map[]), b.(gets := map[])) && Tidied(w, b.(floor := map[]), c.(floor := map[]))
    requires Bounded(b.gets, tally)
    ensures Tidied(w, a.(gets := map[], floor := map[]), c.(gets := map[], floor := map[])) && Bounded(c.gets, tally)
    ensures forall p :: p in c.gets ==> p in b.gets
  {
    hide Nudged, Bounded;
    TidiedNoGets(w, a.(gets := map[]), b.(gets := map[]));
    TidiedNoGets(w, b.(floor := map[]), c.(floor := map[]));
    TidiedTrans(w, a.(gets := map[], floor := map[]), b.(gets := map[], floor := map[]),
        c.(gets := map[], floor := map[]));
    BoundedLess(b.gets, c.gets, tally);
  }

  lemma RanTaken(w: World, rule: RuleType, p: Ptr, taken: bool, a: Exec, b: Exec)
    requires Ran(w, rule, p, taken, a, b)
    ensures taken ==> b.state == Executing(rule) && b.pending == p
  {
  }
}
