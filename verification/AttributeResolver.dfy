/** The attribute resolver: one method per entry point, and per pass of its walk. The resolver
    thread, the attribute store, the senders and the timers all step it. */
module AttributeResolver {
  import opened Common
  import opened StoreLedger
  import opened NodeHeap
  import opened StoreRows
  import opened ResolverWalk
  import opened ScanRequests
  import opened RuleGroups
  import opened RuleSlot
  import opened ResolverState
  import opened ResolverInvariants

  const SET_RETRY_BACKOFF: nat := 500
  const WAITING_BACKOFF: nat := 1000

  /** A value after a write; writing the same value changes nothing. */
  function Written(vals: Values, p: Ptr, state: ValueState, value: seq<Byte>): Values {
    var v := ValOf(vals, p);
    var w := if state.Desired? then v.(desired := value) else v.(reported := value);
    if v == w then vals else vals[p := w]
  }

  /** The resolver is called back for a change of this state: for any change of a type that has a Set
      rule, for reported values only of a type that has just a Get rule. */
  predicate CalledBack(b: Book, t: Typ, state: ValueState) {
    HasRule(b, t, SetRule) || (HasRule(b, t, GetRule) && state.Reported?)
  }

  /** What a completed Set does to the values of its group. */
  datatype Change = ClearBoth | ClearDesired | Align

  function Changed(how: Change, v: Val): Val {
    match how
    case ClearBoth => Val([], [])
    case ClearDesired => v.(desired := [])
    case Align => Val(if v.desired != [] then v.desired else v.reported, [])
  }

  /** The values of a group are changed, and no others. */
  ghost predicate AllChanged(how: Change, group: set<Ptr>, before: Values, after: Values) {
    forall q :: ValOf(after, q) == if q in group then Changed(how, ValOf(before, q)) else ValOf(before, q)
  }

  lemma AllChangedNone(how: Change, vals: Values)
    ensures AllChanged(how, {}, vals, vals)
  {
  }

  lemma AllChangedMore(how: Change, group: set<Ptr>, p: Ptr, a: Values, b: Values, c: Values)
    requires AllChanged(how, group, a, b) && AllChanged(how, {p}, b, c) && p !in group
    ensures AllChanged(how, group + {p}, a, c)
  {
    hide Changed, ValOf;
  }

  ghost predicate SameReported(before: Values, after: Values) {
    forall q :: ValOf(after, q).reported == ValOf(before, q).reported
  }

  lemma SameReportedTrans(a: Values, b: Values, c: Values)
    requires SameReported(a, b) && SameReported(b, c)
    ensures SameReported(a, c)
  {
  }

  lemma ClearedSameReported(group: set<Ptr>, before: Values, after: Values)
    ensures SameReported(before, before)
    ensures AllChanged(ClearDesired, group, before, after) ==> SameReported(before, after)
  {
    if AllChanged(ClearDesired, group, before, after) { AllChangedIs(ClearDesired, group, before, after); }
  }

  lemma RearmedSameReported(vals: Values, p: Ptr, value: seq<Byte>)
    ensures SameReported(vals, vals) && SameReported(vals, Written(vals, p, Desired, value))
    ensures ValOf(Written(vals, p, Desired, value), p).desired == value
  {
  }

  lemma WrittenAt(vals: Values, p: Ptr, state: ValueState, value: seq<Byte>)
    ensures forall q :: ValOf(Written(vals, p, state, value), q) ==
              if q != p then ValOf(vals, q)
              else if state.Desired? then ValOf(vals, p).(desired := value) else ValOf(vals, p).(reported := value)
  {
  }

  /** The status of a sent frame. */
  datatype SendStatus = SendOk | SendPending | SendFail | Verified | ExecutionFailed | AlreadyHandled | Aborted

  /** The status changes no value. */
  predicate Silent(status: SendStatus) { status == SendPending || status == AlreadyHandled || status == Aborted }

  /** What the status of a Set does to a value; `member` says that the node is in the Set group, `self`
      that it is the resolved node. */
  function Outcome(status: SendStatus, more: bool, member: bool, self: bool, v: Val): Val {
    match status
    case SendOk => if member && !more then Val([], []) else if self then v.(reported := []) else v
    case SendFail => if member then v.(desired := []) else v
    case Verified => if member && !more then Val(if v.desired != [] then v.desired else v.reported, []) else v
    case ExecutionFailed => if member && !more then Val([], []) else v
    case _ => v
  }

  ghost predicate OutcomeOf(status: SendStatus, more: bool, group: set<Ptr>, self: set<Ptr>, before: Values,
      after: Values) {
    forall q :: ValOf(after, q) == Outcome(status, more, q in group, q in self, ValOf(before, q))
  }

  lemma NothingChanged(status: SendStatus, more: bool, group: set<Ptr>, self: set<Ptr>, vals: Values)
    ensures status != SendOk && status != SendFail && (more || (status != Verified && status != ExecutionFailed)) ==>
              OutcomeOf(status, more, group, self, vals, vals)
  {
  }

  lemma GroupChanged(status: SendStatus, more: bool, group: set<Ptr>, self: set<Ptr>, how: Change, before: Values,
      after: Values)
    requires AllChanged(how, group, before, after) && status != SendOk
    requires status == SendFail || (!more && (status == Verified || status == ExecutionFailed))
    requires how == if status == SendFail then ClearDesired else if status == Verified then Align else ClearBoth
    ensures OutcomeOf(status, more, group, self, before, after)
  {
    hide ValOf;
  }

  lemma AllChangedIs(how: Change, group: set<Ptr>, before: Values, after: Values)
    requires AllChanged(how, group, before, after)
    ensures forall q :: ValOf(after, q) == if q in group then Changed(how, ValOf(before, q)) else ValOf(before, q)
  {
  }

  ghost function GivenUp(gets: Gets, group: set<Ptr>, retries: nat): Gets {
    map p | p in gets.Keys + group :: if p in group then PendingGet(0, retries) else gets[p]
  }

  /** A give-up makes a new entry: there was none, or the loss of the desired value erases it first. */
  predicate StartsOver(a: Attrs, gets: Gets, p: Ptr) {
    p !in gets ||
    (p in a.tree && HasRule(a.book, a.tree[p].typ, SetRule) && ValOf(a.vals, p).desired != [] &&
     (!NeedsGet(a, p) || gets[p].count >= a.retries))
  }

  /** The tries of a node that is given up. */
  function TriesGivenUp(a: Attrs, gets: Gets, tries: map<Ptr, Tries>, p: Ptr): Tries {
    if StartsOver(a, gets, p) || p !in tries then Tries(0, 0) else tries[p].(ups := tries[p].ups + 1)
  }

  ghost function AllGivenUp(a: Attrs, gets: Gets, tries: map<Ptr, Tries>, group: set<Ptr>): map<Ptr, Tries> {
    map p | p in tries.Keys + group :: if p in group then TriesGivenUp(a, gets, tries, p) else tries[p]
  }

  lemma GivenUpNone(a: Attrs, gets: Gets, tries: map<Ptr, Tries>)
    ensures GivenUp(gets, {}, a.retries) == gets && AllGivenUp(a, gets, tries, {}) == tries
  {
  }

  lemma GivenUpMore(a: Attrs, b: Attrs, gets: Gets, tries: map<Ptr, Tries>, group: set<Ptr>, p: Ptr)
    requires b == a.(vals := b.vals) && p !in group && AllChanged(ClearDesired, group, a.vals, b.vals)
    ensures var g, t := GivenUp(gets, group, a.retries), AllGivenUp(a, gets, tries, group);
            GivenUp(gets, group + {p}, a.retries) == g[p := PendingGet(0, a.retries)] &&
            AllGivenUp(a, gets, tries, group + {p}) == t[p := TriesGivenUp(b, g, t, p)]
  {
    hide AllChanged;
    AllChangedIs(ClearDesired, group, a.vals, b.vals);
    assert ValOf(b.vals, p) == ValOf(a.vals, p);
  }

  /** Read before a give-up: it keeps the accepted Gets within the count if it makes a new entry, or if the count
      is not above the configured one; and when every counted attempt was accepted, only then. */
  lemma GiveUpKeepsBoundIff(a: Attrs, gets: Gets, tries: map<Ptr, Tries>, group: set<Ptr>, p: Ptr)
    requires p in group && p in gets && p in tries && tries[p].runs <= gets[p].count
    ensures var runs, count := AllGivenUp(a, gets, tries, group)[p].runs, GivenUp(gets, group, a.retries)[p].count;
            (StartsOver(a, gets, p) || gets[p].count <= a.retries ==> runs <= count) &&
            (tries[p].runs == gets[p].count ==> (runs <= count <==>
                StartsOver(a, gets, p) || gets[p].count <= a.retries))
  {
  }

  /** A retry adds one to the count before it adds one to the accepted Gets. */
  lemma WithinRetried(g: PendingGet, t: Tries, highest: nat, high: nat, base: nat)
    requires base <= highest <= high && Within(g, t, highest, base) && g.count < high
    ensures Within(g.(count := g.count + 1), t, high, base)
    ensures Within(g.(count := g.count + 1), t.(runs := t.runs + 1), high, base)
  {
    ForgivenMore(t.ups, highest, high, base);
  }

  lemma TriesWithin(a: Attrs, gets: Gets, tally: Tally, p: Ptr)
    requires Bounded(gets, tally) && tally.base == a.retries
    ensures tally.base <= tally.highest <= 255
    ensures Within(PendingGet(0, a.retries), TriesGivenUp(a, gets, tally.tries, p), tally.highest, tally.base)
  {
    if p in gets && !StartsOver(a, gets, p) { WithinGivenUp(gets[p], tally.tries[p], tally.highest, tally.base); }
  }

  /** What clearing the desired value leaves of the pending Get. */
  lemma ClearedGet(a: Attrs, gets: Gets, p: Ptr)
    requires p in a.tree
    ensures var b := a.(vals := Written(a.vals, p, Desired, []));
            StartsOver(a, gets, p) <==> p !in gets || GetDropped(a, b, Desired, gets, p)
  {
    WrittenAt(a.vals, p, Desired, []);
  }

  /** The write is one that the resolver is told of, and that leaves the pending Get resolved or exhausted. */
  predicate GetDropped(a: Attrs, b: Attrs, state: ValueState, gets: Gets, p: Ptr) {
    p in a.tree && b.vals != a.vals && CalledBack(a.book, a.tree[p].typ, state) &&
        (!NeedsGet(b, p) || Exhausted(b, gets, p))
  }

  lemma ExhaustedAll(a: Attrs, vals: Values, gets: Gets, group: set<Ptr>)
    requires AllChanged(ClearDesired, group, vals, a.vals)
    ensures forall q :: q in group ==>
            ValOf(a.vals, q).desired == [] &&
            Exhausted(a, GivenUp(gets, group, a.retries), q)
  {
    forall q | q in group ensures ValOf(a.vals, q).desired == [] && Exhausted(a, GivenUp(gets, group, a.retries), q) {
      assert ValOf(a.vals, q) == Changed(ClearDesired, ValOf(vals, q));
    }
  }

  lemma GroupInTree(b: Book, h: Heap, r: RuleType, p: Ptr)
    ensures Group(b, h, r, p) <= h.Keys
  {
  }

  /** What the environment does with a rule that is executed: the rule function answers with a frame
      that the sender accepts or rejects, or with no frame. A rejecting sender may complete the rule
      at once; an accepting one completes it later. */
  datatype Frame =
    | Accepted(more: bool)
    | Rejected(sync: Option<SendStatus>)
    | TooLong
    | Throws
    | AlreadyThere
    | Waiting
    | Unready
    | Odd

  datatype Status = Ok | InProgress | NotReady | WouldOverflow | NotSupported | AlreadyExists | IsWaiting |
      NotFound | Busy | Abort | NotInitialized

  predicate Taken(s: Status) { s == Ok || s == InProgress }

  /** The rule has more frames to send after an accepted one. */
  predicate More(env: Frame) { env.Accepted? && env.more }

  /** The status of a rule that ran. */
  function Answer(env: Frame): (r: Status)
    ensures Taken(r) <==> env.Accepted?
    ensures r != Busy && r != Abort && r != NotFound && r != NotInitialized
  {
    match env
    case Accepted(more) => if more then InProgress else Ok
    case Rejected(_) => NotReady
    case TooLong => WouldOverflow
    case AlreadyThere => AlreadyExists
    case Waiting => IsWaiting
    case Unready => IsWaiting
    case Throws => NotSupported
    case Odd => NotSupported
  }

  /** The steps of the resolver thread and of the timers. */
  datatype OwnKind =
    | NextEvent
    | WalkPass(env: Frame)
    | QueuedEvent
    | ResumeTimer
    | RuleTimer
    | TimeoutRead
    | TimeoutHandled
    | TimePasses(d: nat)

  /** The steps that take no resolver lock: a value changes, a node is linked or cut off, and the slot is
      freed at the end of a status report. */
  datatype FreeKind =
    | Change(node: Ptr, state: ValueState, value: seq<Byte>)
    | Link(parent: Ptr, node: Ptr, typ: Typ)
    | Cut(node: Ptr)
    | Freed(node: Ptr)

  /** The steps of the attribute store, of the senders and of the clients that take the resolver lock.
      Callbacks for an updated or deleted node may come at any time. */
  datatype LockedKind =
    | Sent(status: SendStatus, node: Ptr, rule: RuleType)
    | Call(node: Ptr)
    | Value(node: Ptr, state: ValueState, value: seq<Byte>)
    | Updated(node: Ptr)
    | Deleted(node: Ptr)
    | PauseNode(node: Ptr)
    | ResumeNode(node: Ptr)
    | Listen(node: Ptr)
    | Unlisten(node: Ptr)
    | GetAgain(node: Ptr)
    | SetAgain(node: Ptr)
    | ExhaustedAgain(node: Ptr)
    | Rearm(node: Ptr, count: Byte)
    | StartGroup(node: Ptr, count: Byte)

  datatype Step = Own(own: OwnKind) | Free(free: FreeKind) | Locked(locked: LockedKind)

  /** A completed Set settles its group: after the last frame no member has a Set to do. A verified
      execution makes the desired value the reported one, a failed transmission leaves the reported
      value alone, and no node outside the group changes but the resolved one. */
  lemma SetSettlesGroup(a: Attrs, before: Values, status: SendStatus, more: bool, p: Ptr, q: Ptr)
    requires OutcomeOf(status, more, Group(a.book, a.tree, SetRule, p), {p} * a.tree.Keys, before, a.vals)
    requires status == SendFail || (!more && (status == SendOk || status == Verified || status == ExecutionFailed))
    ensures q in Group(a.book, a.tree, SetRule, p) ==>
              var v, w := ValOf(before, q), ValOf(a.vals, q);
              !NeedsSet(a, q) && w.desired == [] &&
              (status == Verified ==> w.reported == if v.desired != [] then v.desired else v.reported) &&
              (status == SendFail ==> w.reported == v.reported) &&
              (status == SendOk || status == ExecutionFailed ==> w.reported == [])
    ensures q !in Group(a.book, a.tree, SetRule, p) && q != p ==> ValOf(a.vals, q) == ValOf(before, q)
  {
    hide Group;
    assert ValOf(a.vals, q) == Outcome(status, more, q in Group(a.book, a.tree, SetRule, p), q in {p} * a.tree.Keys,
        ValOf(before, q));
  }

  /** The type of the node has a Set rule, and the desired value is defined. */
  predicate SetDefined(a: Attrs, p: Ptr) {
    p in a.tree && HasRule(a.book, a.tree[p].typ, SetRule) && ValOf(a.vals, p).desired != []
  }

  /** Nothing is kept about the node. */
  predicate Forgotten(p: Ptr, listeners: set<Ptr>, paused: set<Ptr>, gets: Gets, sets: map<Ptr, bool>,
      rearm: map<Ptr, Byte>) {
    p !in listeners && p !in paused && p !in gets && p !in sets && p !in rearm
  }

  // -- What a scan under way is asked for -------------------------------------------------

  /** The step may take `q` from what the scan under way is asked for: a pass that considers it, or that cuts off
      a missing or paused node; its own deletion, or one that moves it past an index of the stack; and an addition
      that turns an index beyond the children into their end. */
  ghost predicate MayLose(step: Step, w: World, s: Sched, q: Ptr) {
    match step
    case Own(WalkPass(_)) =>
      s.stack != [] && (WalkStep(w, s.stack).1 == Some(q) || (Skipped(w, q) && !AheadOf(w, WalkStep(w, s.stack).0, q)))
    case Free(Cut(d)) => q == d || exists j :: IsChildAt(w.h, d, j) && !KeptAhead(w, d, j, s.stack, q)
    case Free(Link(p, _, _)) => !GrownAhead(w, p, s.stack, q)
    case _ => false
  }

  ghost predicate AskedKept(step: Step, w: World, s: Sched, asked: set<Ptr>) {
    forall q :: q in s.walk.asked && !MayLose(step, w, s, q) ==> q in asked
  }

  /** A pass takes nothing else from what is asked. */
  lemma PassLoses(env: Frame, w: World, s: Sched, asked: set<Ptr>)
    requires Good(w) && AllAhead(w, s.walk.asked, s.stack)
    requires s.stack == [] ==> s.walk.asked <= asked
    requires s.stack != [] ==> var step := WalkStep(w, s.stack); Passed(w, s, step.0, step.1).walk.asked <= asked
    ensures AskedKept(Own(WalkPass(env)), w, s, asked)
  {
    hide WalkStep, Skipped, Good, AheadOf, Remaining;
    if s.stack != [] {
      WalkStepSplits(w, s.stack);
      var (next, hit) := WalkStep(w, s.stack);
      forall q | q in s.walk.asked && hit != Some(q) && !Skipped(w, q) ensures AheadOf(w, next, q) {
        PassAhead(w, s.stack, next, hit, q);
      }
    }
  }

  // -- Which rule runs --------------------------------------------------------------------

  /** Another node of the group has the same kind of resolution on the way. */
  ghost predicate Queued(a: Attrs, gets: Gets, sets: map<Ptr, bool>, p: Ptr, rule: RuleType) {
    exists q :: q in Group(a.book, a.tree, rule, p) && if rule == GetRule then q in gets else q in sets
  }

  /** The status of executing a rule, with the slot free or not. */
  function RuleStatus(a: Attrs, idle: bool, p: Ptr, rule: RuleType, env: Frame): Status {
    if p !in a.tree || a.tree[p].typ !in a.book.rule then NotFound
    else if !idle then Busy
    else if HasRule(a.book, a.tree[p].typ, rule) then Answer(env)
    else NotSupported
  }

  /** A Get runs for the first time unless another node of the group is pending, and again when its time
      has come, up to the retry limit. */
  ghost function GetStatus(a: Attrs, gets: Gets, sets: map<Ptr, bool>, clock: nat, idle: bool, p: Ptr,
      env: Frame): Status {
    if p !in gets then (if Queued(a, gets, sets, p, GetRule) then IsWaiting else RuleStatus(a, idle, p, GetRule, env))
    else if Exhausted(a, gets, p) then Abort
    else if gets[p].timeout != 0 && gets[p].timeout <= clock then RuleStatus(a, idle, p, GetRule, env)
    else IsWaiting
  }

  /** A Set runs unless it or another node of the group is pending, or it cools down. */
  ghost function SetStatus(a: Attrs, gets: Gets, sets: map<Ptr, bool>, cooldown: Times, clock: nat, idle: bool,
      p: Ptr, env: Frame): Status {
    if p in sets || (p in cooldown && clock < cooldown[p]) || Queued(a, gets, sets, p, SetRule) then IsWaiting
    else RuleStatus(a, idle, p, SetRule, env)
  }

  /** Get operations have priority. */
  ghost function AttemptStatusOf(a: Attrs, gets: Gets, sets: map<Ptr, bool>, cooldown: Times, clock: nat, idle: bool,
      p: Ptr, env: Frame): Status {
    if NeedsGet(a, p) then GetStatus(a, gets, sets, clock, idle, p, env)
    else if NeedsSet(a, p) then SetStatus(a, gets, sets, cooldown, clock, idle, p, env)
    else NotInitialized
  }

  /** The values and the bookkeeping of resolutions. */
  datatype Books = Books(vals: Values, gets: Gets, sets: map<Ptr, bool>, cooldown: Times, floor: Times,
      rearm: map<Ptr, Byte>, tries: map<Ptr, Tries>)

  /** The tries of a node after an accepted Get. */
  function TriedOnce(gets: Gets, tries: map<Ptr, Tries>, p: Ptr): map<Ptr, Tries> {
    if p in gets && p in tries then tries[p := tries[p].(runs := tries[p].runs + 1)] else tries[p := Tries(1, 0)]
  }

  /** After a taken frame: a Set is pending, without a pending Get or an expired cooldown; a Get is counted
      once more. */
  function TakenBooks(b: Books, rule: RuleType, p: Ptr, more: bool): Books {
    if rule == SetRule then b.(gets := b.gets - {p}, sets := b.sets[p := more], cooldown := b.cooldown - {p})
    else b.(gets := b.gets[p := if p in b.gets then b.gets[p].(count := b.gets[p].count + 1) else PendingGet(0, 1)],
            tries := TriedOnce(b.gets, b.tries, p))
  }

  /** Node `p` was considered. A taken frame holds the slot for the node and the rule, and is booked;
      otherwise the slot is free. */
  ghost predicate Considered(p: Ptr, taken: bool, rule: RuleType, more: bool, b: Books, e: Exec, c: Books) {
    && (taken <==> e.state != Idle)
    && (taken ==> e.state == Executing(rule) && e.pending == p && e.more == more && c == TakenBooks(b, rule, p, more))
  }

  /** Considering a node adds nothing to what the scan has considered before, and with a rule under way
      the walk stops where it is. */
  ghost predicate Followed(p: Ptr, s: Sched, log: seq<SlotEvent>, e: Exec, walking: bool) {
    && e.sched.walk.scanned == s.walk.scanned && s.walk.asked <= e.sched.walk.asked
    && (e.state != Idle ==>
          !walking && e.log == log + [Claimed(p)] && e.sched.stack == s.stack && e.sched.walk == s.walk &&
              e.sched.scanRequested == s.scanRequested &&
          e.sched.queue == if s.stack == [] && s.scanRequested then s.queue + [Next] else s.queue)
  }

  lemma FollowedAsked(p: Ptr, s: Sched, log: seq<SlotEvent>, e: Exec, walking: bool)
    requires Followed(p, s, log, e, walking)
    ensures s.walk.asked <= e.sched.walk.asked
  {
  }

  // -- Which entries a change of values drops ---------------------------------------------

  /** Of these nodes, those with a Set rule stay whose value is as before, or that still need a Set. */
  ghost predicate Survive(a: Attrs, b: Attrs, before: set<Ptr>, after: set<Ptr>) {
    && after <= before
    && forall q :: q in before && q in a.tree && HasRule(a.book, a.tree[q].typ, SetRule) ==>
         (q in after <==> ValOf(b.vals, q) == ValOf(a.vals, q) || NeedsSet(b, q))
  }

  /** The pending Sets and the pacing that survive a change of values. */
  ghost predicate Survived(a: Attrs, b: Attrs, d: Desk, e: Desk) {
    Survive(a, b, d.sets.Keys, e.sets.Keys) && Survive(a, b, d.floor.Keys, e.floor.Keys)
  }

  lemma SurvivedAll(a: Attrs, d: Desk)
    ensures Survived(a, a, d, d)
  {
  }

  /** Two changes in a row, where a node that both change needs no Set afterwards. */
  ghost predicate InTurn(a: Attrs, b: Attrs, c: Attrs) {
    && b == a.(vals := b.vals) && c == a.(vals := c.vals)
    && forall q :: var u, v, w := ValOf(a.vals, q), ValOf(b.vals, q), ValOf(c.vals, q);
         v == u || w == v || (w != u && !NeedsSet(c, q))
  }

  lemma SurviveTwice(a: Attrs, b: Attrs, c: Attrs, x: set<Ptr>, y: set<Ptr>, z: set<Ptr>)
    requires InTurn(a, b, c) && Survive(a, b, x, y) && Survive(b, c, y, z)
    ensures Survive(a, c, x, z)
  {
    forall q | q in x && q in a.tree && HasRule(a.book, a.tree[q].typ, SetRule)
      ensures q in z <==> ValOf(c.vals, q) == ValOf(a.vals, q) || NeedsSet(c, q)
    {
      var u, v, w := ValOf(a.vals, q), ValOf(b.vals, q), ValOf(c.vals, q);
      assert v == u || w == v || (w != u && !NeedsSet(c, q));
    }
  }

  lemma SurvivedTwice(a: Attrs, b: Attrs, c: Attrs, d: Desk, e: Desk, f: Desk)
    requires InTurn(a, b, c) && Survived(a, b, d, e) && Survived(b, c, e, f)
    ensures Survived(a, c, d, f)
  {
    hide InTurn, Survive;
    SurviveTwice(a, b, c, d.sets.Keys, e.sets.Keys, f.sets.Keys);
    SurviveTwice(a, b, c, d.floor.Keys, e.floor.Keys, f.floor.Keys);
  }

  /** Of the pending Gets of nodes with a Set rule, those stay whose value is as before; of the others,
      those may stay that are due and not exhausted. */
  ghost predicate GetsSurvive(a: Attrs, b: Attrs, gets: Gets, less: Gets) {
    && Less(gets, less)
    && forall q :: q in gets && q in a.tree && HasRule(a.book, a.tree[q].typ, SetRule) ==>
         if ValOf(b.vals, q) == ValOf(a.vals, q) then q in less else q in less ==>
             NeedsGet(b, q) && !Exhausted(b, less, q)
  }

  /** The resolver has taken notice of a change of values. */
  ghost predicate Noticed(a: Attrs, b: Attrs, d: Desk, e: Desk) {
    Survived(a, b, d, e) && GetsSurvive(a, b, d.gets, e.gets) && Less(d.sets, e.sets) && Less(d.floor, e.floor)
  }

  lemma NoticedAll(a: Attrs, d: Desk)
    ensures Noticed(a, a, d, d)
  {
    SurvivedAll(a, d);
  }

  lemma GetsSurviveTwice(a: Attrs, b: Attrs, c: Attrs, x: Gets, y: Gets, z: Gets)
    requires InTurn(a, b, c) && GetsSurvive(a, b, x, y) && GetsSurvive(b, c, y, z)
    ensures GetsSurvive(a, c, x, z)
  {
    forall q | q in x && q in a.tree && HasRule(a.book, a.tree[q].typ, SetRule)
      ensures if ValOf(c.vals, q) == ValOf(a.vals, q) then q in z else q in z ==> NeedsGet(c, q) && !Exhausted(c, z, q)
    {
      var u, v, w := ValOf(a.vals, q), ValOf(b.vals, q), ValOf(c.vals, q);
      assert v == u || w == v || (w != u && !NeedsSet(c, q));
    }
  }

  lemma NoticedTwice(a: Attrs, b: Attrs, c: Attrs, d: Desk, e: Desk, f: Desk)
    requires InTurn(a, b, c) && Noticed(a, b, d, e) && Noticed(b, c, e, f)
    ensures Noticed(a, c, d, f)
  {
    hide InTurn, Survived, GetsSurvive;
    SurvivedTwice(a, b, c, d, e, f);
    GetsSurviveTwice(a, b, c, d.gets, e.gets, f.gets);
  }

  /** A write drops the entries of its node if the resolver is told and they are of no more use. */
  lemma NoticedWrite(a: Attrs, p: Ptr, state: ValueState, value: seq<Byte>, d: Desk, e: Desk)
    requires p in a.tree
    requires var b := a.(vals := Written(a.vals, p, state, value));
             if b.vals != a.vals && CalledBack(a.book, a.tree[p].typ, state)
             then e.sets == (if NeedsSet(b, p) then d.sets else d.sets - {p}) &&
                 e.floor == (if NeedsSet(b, p) then d.floor else d.floor - {p}) &&
                  e.gets == if !NeedsGet(b, p) || Exhausted(b, d.gets, p) then d.gets - {p} else d.gets
             else e.sets == d.sets && e.floor == d.floor && e.gets == d.gets
    ensures Noticed(a, a.(vals := Written(a.vals, p, state, value)), d, e)
  {
    WrittenAt(a.vals, p, state, value);
  }

  /** Both values of a node change one after the other. */
  lemma OneInTurn(how: Change, p: Ptr, a: Attrs, b: Attrs, c: Attrs)
    requires b == a.(vals := b.vals) && c == a.(vals := c.vals)
    requires forall q :: q != p ==> ValOf(b.vals, q) == ValOf(a.vals, q) && ValOf(c.vals, q) == ValOf(b.vals, q)
    requires var u := ValOf(a.vals, p);
             ValOf(b.vals, p) == (if how.ClearDesired? then u
                 else u.(reported := if how.ClearBoth? then [] else if u.desired != [] then u.desired
                 else u.reported)) &&
             ValOf(c.vals, p) == ValOf(b.vals, p).(desired := [])
    ensures InTurn(a, b, c)
  {
    hide ValOf, HasRule;
  }

  /** The resolved node loses its reported value, and then the group both values. */
  lemma OkInTurn(group: set<Ptr>, p: Ptr, a: Attrs, b: Attrs, c: Attrs)
    requires b == a.(vals := b.vals) && c == a.(vals := c.vals) && AllChanged(ClearBoth, group, b.vals, c.vals)
    requires forall q ::
             ValOf(b.vals, q) == ValOf(a.vals, q) ||
             (q == p && ValOf(b.vals, q) == ValOf(a.vals, q).(reported := []))
    ensures InTurn(a, b, c)
  {
    hide ValOf, HasRule;
  }

  /** The nodes of a group change one after the other. */
  lemma GroupInTurn(how: Change, group: set<Ptr>, x: Ptr, a: Attrs, b: Attrs, c: Attrs)
    requires b == a.(vals := b.vals) && c == a.(vals := c.vals) && x !in group
    requires AllChanged(how, group, a.vals, b.vals) && AllChanged(how, {x}, b.vals, c.vals)
    ensures InTurn(a, b, c)
  {
    hide Changed, ValOf, NeedsSet;
  }

  /** The status of a Set on `p` has arrived. */
  ghost predicate Arrived(status: SendStatus, more: bool, p: Ptr, a: Attrs, b: Attrs, d: Desk, e: Desk) {
    && OutcomeOf(status, more, Group(a.book, a.tree, SetRule, p), {p} * a.tree.Keys, a.vals, b.vals)
    && b == a.(vals := b.vals) && Noticed(a, b, d, e)
  }

  // -- What a completion does -------------------------------------------------------------

  /** The node has a single-frame Set in flight. */
  predicate Single(sets: map<Ptr, bool>, p: Ptr) { p in sets && !sets[p] }

  /** The completion gives up the Get of the node, and with it the Set that is due. */
  ghost predicate GivesUpSet(a: Attrs, gets: Gets, p: Ptr) {
    NeedsGet(a, p) && Exhausted(a, gets, p) && p in Group(a.book, a.tree, GetRule, p) && SetDefined(a, p)
  }

  predicate PacedUntil(floor: Times, p: Ptr, t: nat) { p in floor && floor[p] == t }

  /** The node is not paced anew. */
  predicate NotPaced(before: Times, after: Times, p: Ptr) { p in after ==> p in before && after[p] == before[p] }

  /** The Get part: wait for the report until the retry timeout, or give the group up after the last
      attempt. */
  ghost predicate GetPart(a: Attrs, b: Books, c: Attrs, d: Books, p: Ptr, deadline: nat) {
    && SameReported(b.vals, d.vals) && d.rearm == b.rearm && Less(b.sets, d.sets) && Less(b.floor, d.floor)
    && Survive(a, c, b.sets.Keys, d.sets.Keys) && Survive(a, c, b.floor.Keys, d.floor.Keys)
    && GetBooked(a, b, d, p, deadline)
  }

  /** What is pending and what was tried after the Get part. */
  ghost predicate GetBooked(a: Attrs, b: Books, d: Books, p: Ptr, deadline: nat) {
    var group := Group(a.book, a.tree, GetRule, p);
    if NeedsGet(a, p) && Exhausted(a, b.gets, p)
    then AllChanged(ClearDesired, group, b.vals, d.vals) && d.tries == AllGivenUp(a, b.gets, b.tries, group) &&
         d.gets == GivenUp(b.gets[p := b.gets[p].(timeout := deadline)], group, a.retries)
    else d.vals == b.vals && d.tries == b.tries &&
         d.gets == if p in b.gets && NeedsGet(a, p) then b.gets[p := b.gets[p].(timeout := deadline)] else b.gets
  }

  /** The Set part: the node is no longer pending, a re-arm is consumed, and then a single-frame Set that
      is still due is paced. */
  ghost predicate SetPart(b: Books, c: Attrs, d: Books, p: Ptr, until: nat) {
    && p !in d.sets && Less(b.sets, d.sets) && Less(b.gets, d.gets) && d.rearm == b.rearm - {p}
    && d.tries == b.tries && (p !in b.rearm ==> d.gets == b.gets)
    && d.vals == (if p in b.rearm && p in c.tree then Written(b.vals, p, Desired, [b.rearm[p]]) else b.vals)
    && if Single(b.sets, p) then (if NeedsSet(c, p) then PacedUntil(d.floor, p, until) else p !in d.floor)
       else NotPaced(b.floor, d.floor, p)
  }

  /** A completion: reported values stay; a re-arm is consumed once and restores the last requested count,
      which leaves a Set to do if the reported value is undefined; the node is no longer pending; and a
      single-frame Set that is still due is paced if and only if the completion did not give it up. */
  ghost predicate Completed(a: Attrs, b: Books, c: Attrs, d: Books, p: Ptr, now: nat, wait: nat) {
    && (p !in b.rearm ==> GetBooked(a, b, d, p, now + wait))
    && SameReported(b.vals, d.vals)
    && d.rearm == b.rearm - {p} && (p in b.rearm && p in a.tree ==> ValOf(d.vals, p).desired == [b.rearm[p]])
    && (p in b.rearm && p in a.tree && HasRule(a.book, a.tree[p].typ, SetRule) && ValOf(b.vals, p).reported == [] ==>
       NeedsSet(c, p))
    && p !in d.sets && Less(b.sets, d.sets) && (p !in b.gets ==> p !in d.gets)
    && (Single(b.sets, p) && NeedsSet(c, p) ==>
          (PacedUntil(d.floor, p, now + SET_RETRY_BACKOFF) <==> !GivesUpSet(a, b.gets, p)) &&
              (GivesUpSet(a, b.gets, p) ==> p !in d.floor))
    && (!Single(b.sets, p) ==> NotPaced(b.floor, d.floor, p))
  }

  lemma GetPartNone(a: Attrs, b: Books, p: Ptr, deadline: nat)
    requires a.vals == b.vals
    ensures !(p in b.gets && NeedsGet(a, p)) ==> GetPart(a, b, a, b, p, deadline)
  {
    hide NeedsGet, ValOf, Group;
  }

  lemma GetPartWaits(a: Attrs, b: Books, p: Ptr, deadline: nat)
    requires a.vals == b.vals && p in b.gets && NeedsGet(a, p)
    ensures b.gets[p].count < Limit(a, p) ==> GetPart(a, b, a,
            b.(gets := b.gets[p := b.gets[p].(timeout := deadline)]), p, deadline)
  {
    hide ValOf, Group, Limit;
  }

  lemma GetPartGivesUp(a: Attrs, b: Books, c: Attrs, d: Books, x: Desk, y: Desk, p: Ptr, deadline: nat)
    requires a.vals == b.vals && c == a.(vals := d.vals) && p in b.gets && NeedsGet(a, p) &&
             b.gets[p].count >= Limit(a, p)
    requires AllChanged(ClearDesired, Group(a.book, a.tree, GetRule, p), b.vals, d.vals)
    requires var gets := b.gets[p := b.gets[p].(timeout := deadline)];
             d.gets == GivenUp(gets, Group(a.book, a.tree, GetRule, p), a.retries) &&
             d.tries == AllGivenUp(a, gets, b.tries, Group(a.book, a.tree, GetRule, p))
    requires d.rearm == b.rearm && Less(b.sets, d.sets) && Less(b.floor, d.floor)
    requires Survived(a, c, x, y) && x.sets == b.sets && y.sets == d.sets && x.floor == b.floor && y.floor == d.floor
    ensures GetPart(a, b, c, d, p, deadline)
  {
    hide ValOf, Group, Limit, AllChanged, NeedsGet, Less, Survive, SameReported, GivenUp, HasRule;
    ClearedSameReported(Group(a.book, a.tree, GetRule, p), b.vals, d.vals);
    assert AllGivenUp(a, b.gets[p := b.gets[p].(timeout := deadline)], b.tries, Group(a.book, a.tree, GetRule, p)) ==
           AllGivenUp(a, b.gets, b.tries, Group(a.book, a.tree, GetRule, p));
  }

  /** Giving up takes the entry of the node if and only if it gives up its Set. */
  lemma EntryAfterGet(a: Attrs, b: Books, c: Attrs, d: Books, p: Ptr, deadline: nat)
    requires GetPart(a, b, c, d, p, deadline) && a.vals == b.vals && c == a.(vals := d.vals) && Single(b.sets, p)
    requires p in a.tree && HasRule(a.book, a.tree[p].typ, SetRule)
    ensures Single(d.sets, p) <==> !GivesUpSet(a, b.gets, p)
    ensures p !in d.sets ==> p !in d.floor
  {
    hide Group;
    if NeedsGet(a, p) && Exhausted(a, b.gets, p) {
      var group := Group(a.book, a.tree, GetRule, p);
      AllChangedIs(ClearDesired, group, b.vals, d.vals);
      assert ValOf(d.vals, p) == if p in group then Changed(ClearDesired, ValOf(b.vals, p)) else ValOf(b.vals, p);
    }
  }

  lemma PartsComplete(a: Attrs, b: Books, m: Attrs, n: Books, c: Attrs, d: Books, p: Ptr, now: nat, wait: nat)
    requires GetPart(a, b, m, n, p, now + wait) && SetPart(n, c, d, p, now + SET_RETRY_BACKOFF)
    requires a.vals == b.vals && m == a.(vals := n.vals) && c == a.(vals := d.vals)
    ensures Completed(a, b, c, d, p, now, wait)
  {
    hide Group, AllChanged, Written, ValOf, HasRule, Survive, Exhausted, GivesUpSet, Single, PacedUntil, NotPaced,
         AllGivenUp, GivenUp;
    RearmedSameReported(n.vals, p, [if p in n.rearm then n.rearm[p] else 0]);
    SameReportedTrans(b.vals, n.vals, d.vals);
    RearmLeavesSet(c, b.vals, p);
    LessTrans(b.sets, n.sets, d.sets);
    PartsPace(a, b, m, n, c, d, p, now + wait, now + SET_RETRY_BACKOFF);
    if p !in b.gets { GetsDropped(a, b, m, n, p, now + wait); }
  }

  lemma PartsPace(a: Attrs, b: Books, m: Attrs, n: Books, c: Attrs, d: Books, p: Ptr, deadline: nat, until: nat)
    requires GetPart(a, b, m, n, p, deadline) && SetPart(n, c, d, p, until)
    requires a.vals == b.vals && m == a.(vals := n.vals) && c == a.(vals := d.vals)
    ensures Single(b.sets, p) && NeedsSet(c, p) ==>
              (PacedUntil(d.floor, p, until) <==> !GivesUpSet(a, b.gets, p)) &&
                  (GivesUpSet(a, b.gets, p) ==> p !in d.floor)
    ensures !Single(b.sets, p) ==> NotPaced(b.floor, d.floor, p)
  {
    hide Group, AllChanged, Written, ValOf, HasRule, Survive, Exhausted, GivesUpSet, SameReported, AllGivenUp, GivenUp;
    if NeedsSet(c, p) && Single(b.sets, p) { EntryAfterGet(a, b, m, n, p, deadline); }
  }

  lemma GetsDropped(a: Attrs, b: Books, c: Attrs, d: Books, p: Ptr, deadline: nat)
    requires GetPart(a, b, c, d, p, deadline) && p !in b.gets
    ensures p !in d.gets
  {
  }

  lemma CompletedSets(a: Attrs, b: Books, c: Attrs, d: Books, p: Ptr, now: nat, wait: nat)
    requires Completed(a, b, c, d, p, now, wait)
    ensures p !in d.sets && Less(b.sets, d.sets) && d.rearm == b.rearm - {p} && (p !in b.gets ==> p !in d.gets)
  {
  }

  // -- When a Set is paced ----------------------------------------------------------------

  /** The value of the node after the status of its Set. */
  ghost function AfterStatus(a: Attrs, status: SendStatus, more: bool, p: Ptr): Val {
    Outcome(status, more, p in Group(a.book, a.tree, SetRule, p), p in a.tree, ValOf(a.vals, p))
  }

  /** Seen before the status arrives: the completion call after it paces the node, if the node then has a
      Set to do. The entry of the single-frame Set must outlive the status and the completion. */
  ghost predicate WillPace(a: Attrs, gets: Gets, sets: map<Ptr, bool>, status: SendStatus, more: bool, p: Ptr) {
    var v := AfterStatus(a, status, more, p);
    Single(sets, p) && if v == ValOf(a.vals, p) then !GivesUpSet(a, gets, p)
        else v.desired != [] && v.desired != v.reported
  }

  /** The status ends the Set of the group. */
  predicate Ends(status: SendStatus, more: bool) {
    status == SendFail || (!more && (status == SendOk || status == Verified || status == ExecutionFailed))
  }

  /** For a Set with a defined desired value: it is paced if and only if the status does not end the Set of
      the group that the node belongs to, and the completion does not give up its Get. */
  lemma WillPaceIff(a: Attrs, gets: Gets, sets: map<Ptr, bool>, status: SendStatus, more: bool, p: Ptr)
    requires SetDefined(a, p) && Single(sets, p)
    ensures WillPace(a, gets, sets, status, more, p) <==>
              !(Ends(status, more) && p in Group(a.book, a.tree, SetRule, p)) && !GivesUpSet(a, gets, p)
  {
    hide Group, Exhausted;
  }

  /** A single-frame Set that is due after the status and the completion call is paced if and only if that
      could be seen before. */
  lemma PacedIff(status: SendStatus, more: bool, a: Attrs, b: Attrs, c: Attrs, d: Desk, e: Desk, x: Books, y: Books,
      p: Ptr, now: nat, wait: nat)
    requires Arrived(status, more, p, a, b, d, e) && x.vals == b.vals && x.gets == e.gets && x.sets == e.sets &&
             x.floor == e.floor
    requires Completed(b, x, c, y, p, now, wait) && c == a.(vals := c.vals) && NeedsSet(c, p)
    ensures if WillPace(a, d.gets, d.sets, status, more, p) then PacedUntil(y.floor, p, now + SET_RETRY_BACKOFF)
            else NotPaced(d.floor, y.floor, p)
  {
    hide Group, OutcomeOf, SameReported, Outcome, GivesUpSet, GetBooked;
    StatusAt(status, more, a, b, p);
    if Single(d.sets, p) { EntryAfterStatus(status, more, a, b, d, e, p); }
  }

  lemma StatusAt(status: SendStatus, more: bool, a: Attrs, b: Attrs, p: Ptr)
    requires OutcomeOf(status, more, Group(a.book, a.tree, SetRule, p), {p} * a.tree.Keys, a.vals, b.vals)
    ensures ValOf(b.vals, p) == AfterStatus(a, status, more, p)
  {
    hide Group;
  }

  /** What the status leaves of a single-frame Set. */
  lemma EntryAfterStatus(status: SendStatus, more: bool, a: Attrs, b: Attrs, d: Desk, e: Desk, p: Ptr)
    requires Noticed(a, b, d, e) && b == a.(vals := b.vals) && Single(d.sets, p)
    requires p in a.tree && HasRule(a.book, a.tree[p].typ, SetRule)
    ensures Single(e.sets, p) <==> ValOf(b.vals, p) == ValOf(a.vals, p) || NeedsSet(b, p)
    ensures ValOf(b.vals, p) == ValOf(a.vals, p) ==> (GivesUpSet(b, e.gets, p) <==> GivesUpSet(a, d.gets, p))
    ensures ValOf(b.vals, p) != ValOf(a.vals, p) ==> !GivesUpSet(b, e.gets, p)
  {
    hide Group;
  }

  class Resolver {
    // Configuration
    const root: Ptr
    const book: Book
    const numberOf: (Typ, seq<Byte>) -> real
    const retries: Byte
    const retryTimeout: nat
    const slot: Slot
    // The attribute store
    var tree: Heap
    var vals: Values
    ghost var lev: Levels
    ghost var depth: nat
    // The scan
    var stack: Stack
    var scanRequested: bool
    var queue: seq<Event>
    var walking: bool
    var paused: set<Ptr>
    var listeners: set<Ptr>
    ghost var walk: Walk
    // Resolutions on the way
    var pendingGet: Gets
    var pendingSet: map<Ptr, bool>
    var cooldown: Times
    var rearm: map<Ptr, Byte>
    ghost var tally: Tally
    /** The earliest time of the next Set, after a single frame that left one due; dropped when the
        node no longer needs a Set, is restarted or is deleted. */
    ghost var floor: Times
    /** No Set rule ever ran before that time. */
    ghost var paced: bool
    // Time
    var clock: nat
    var resumeTimer: Option<nat>

    /** The tree and the paused nodes, as the walk sees them. */
    ghost function W(): World
      reads this
    {
      World(tree, root, lev, depth, paused)
    }

    /** The attributes, as the queries see them. */
    function A(): Attrs
      reads this
    {
      Attrs(book, numberOf, retries, tree, vals)
    }

    /** The scan. */
    ghost function S(): Sched
      reads this
    {
      Sched(stack, scanRequested, queue, walk)
    }

    /** What a write of a value may change besides the value. */
    ghost function D(): Desk
      reads this
    {
      Desk(S(), pendingGet, pendingSet, floor)
    }

    ghost function B(): Books
      reads this
    {
      Books(vals, pendingGet, pendingSet, cooldown, floor, rearm, tally.tries)
    }

    /** What an execution of a rule may change. */
    ghost function E(): Exec
      reads this, slot
    {
      Exec(S(), pendingSet, slot.state, slot.pending, slot.needsMoreFrames, slot.due, slot.executing, paced, slot.log)
    }

    /** The retry bound and the pacing hold. */
    ghost predicate InOrder()
      reads this
    {
      Orderly(clock, cooldown, floor, pendingGet, tally, retries)
    }

    /** The links form a tree, and 0 names no node. */
    ghost predicate Sane()
      reads this
    {
      Good(W()) && 0 !in tree
    }

    /** What holds in every reachable state. */
    ghost predicate Valid()
      reads this, slot
    {
      0 !in tree && slot.Valid() && InOrder() && Whole(W(), E(), walking)
    }

    /** `attribute_resolver_init` */
    constructor (root: Ptr, tree: Heap, vals: Values, book: Book, numberOf: (Typ, seq<Byte>) -> real, retries: Byte,
        retryTimeout: nat,
                 ghost lev: Levels, ghost depth: nat)
      requires IsTree(tree, root, lev, depth) && 0 !in tree
      ensures Valid() && !walking && fresh(slot) && slot.log == [] && slot.state == Idle && slot.due == multiset{}
      ensures scanRequested && queue == [Next] && stack == [] && paused == {} && listeners == {} && resumeTimer == None
      ensures this.root == root && this.tree == tree && this.vals == vals && this.book == book &&
              this.numberOf == numberOf && this.retries == retries && this.retryTimeout == retryTimeout
      ensures pendingGet == map[] && pendingSet == map[] && cooldown == map[] && floor == map[] && rearm == map[] &&
              tally.tries == map[]
    {
      hide IsTree, Whole;
      this.root, this.tree, this.vals, this.book, this.numberOf := root, tree, vals, book, numberOf;
      this.retries, this.retryTimeout, this.lev, this.depth := retries, retryTimeout, lev, depth;
      stack, scanRequested, queue, walking, paused, listeners := [], true, [Next], false, {}, {};
      walk := Walk(true, {}, {}, [], true, [], []);
      pendingGet, pendingSet, cooldown, rearm := map[], map[], map[], map[];
      tally, floor, paced := Tally(map[], retries, retries), map[], true;
      clock, resumeTimer := 0, None;
      slot := new Slot();
      new;
      WholeAtFirst(W(), E());
    }

    // -- Scan requests --------------------------------------------------------------------

    /** `scan_node` */
    method ScanNode(p: Ptr)
      requires Sane()
      modifies this`stack, this`scanRequested, this`queue, this`walk
      ensures Nudged(W(), false, old(S()), S())
      ensures p == 0 ==> S() == old(S())
      ensures p != 0 ==> scanRequested && S() == Requested(W(), old(S()), stack, p)
      ensures p in tree && stack != [] && stack[0].node == root ==> Subtree(W(), p) <= walk.asked
      ensures p != 0 && old(stack) != [] ==> NearestReset(W(), old(stack), p, stack)
    {
      hide Good, AheadOf, Nearest, NearestReset, Nudged, Subtree;
      ghost var s := S();
      NudgedNot(W(), s);
      if p == 0 { return; }
      if stack != [] {
        ghost var before, k := stack, 0;
        stack, k := ResetNearest(tree, stack, p, W());
        if k >= 0 { NearestAhead(W(), before, p, k); }
        else if p in tree && stack[0].node == root { RootIsNearEnough(W(), stack, p); }
      }
      if !scanRequested {
        scanRequested := true;
        queue := queue + [Next];
      }
      RequestNudges(W(), s, stack, p);
      walk := Requested(W(), s, stack, p).walk;
    }

    /** The node is due: not paused, and a Get or a Set on it may be tried now. */
    ghost predicate Due(p: Ptr)
      reads this
    {
      !PausedAbove(W(), p) &&
      if NeedsGet(A(), p) then
        p in pendingGet ==>
            pendingGet[p].count < retries && pendingGet[p].timeout <= clock &&
            pendingGet[p].timeout != 0
      else NeedsSet(A(), p) && p !in pendingSet && (p in cooldown ==> cooldown[p] <= clock)
    }

    ghost predicate ListenedTo(p: Ptr)
      reads this
    {
      exists a :: a in listeners && Under(tree, lev, a, p)
    }

    /** If the node is due, or a listener waits above it, a scan is requested, and the scan that is under way is
        asked for the node. */
    ghost predicate Heeded(p: Ptr)
      reads this
    {
      && ((p != 0 && Due(p)) || ListenedTo(p) ==> scanRequested)
      && (p in tree && (Due(p) || ListenedTo(p)) && stack != [] && stack[0].node == root ==> p in walk.asked)
    }

    /** `is_node_to_be_scanned`; an expired cooldown is forgotten on the way. */
    method IsToBeScanned(p: Ptr) returns (r: bool)
      requires Sane()
      modifies this`cooldown
      ensures cooldown == old(cooldown) || (p in old(cooldown) && old(cooldown)[p] <= clock &&
              cooldown == old(cooldown) - {p})
      ensures r <==> old(Due(p))
    {
      hide Good, PausedAbove;
      var off := IsPausedAbove(tree, paused, p, W());
      if off { return false; }
      if NeedsGet(A(), p) {
        return p in pendingGet ==>
            pendingGet[p].count < retries && clock >= pendingGet[p].timeout &&
            pendingGet[p].timeout != 0;
      }
      if NeedsSet(A(), p) && p !in pendingSet {
        if p in cooldown {
          if clock < cooldown[p] { return false; }
          cooldown := cooldown - {p};
        }
        return true;
      }
      return false;
    }

    // -- Changes of the attribute store ---------------------------------------------------

    /** `on_resolver_node_update` for a node that is not deleted. */
    method OnNodeUpdated(p: Ptr)
      requires Sane() && p in tree && Pacing(clock, cooldown, floor)
      modifies this`pendingGet, this`pendingSet, this`cooldown, this`floor, this`stack, this`scanRequested,
               this`queue, this`walk
      ensures Tidied(W(), old(D()), D()) && Pacing(clock, cooldown, floor)
      ensures pendingGet == if !NeedsGet(A(), p) || Exhausted(A(), old(pendingGet), p) then old(pendingGet) - {p}
              else old(pendingGet)
      ensures pendingSet == if NeedsSet(A(), p) then old(pendingSet) else old(pendingSet) - {p}
      ensures floor == if NeedsSet(A(), p) then old(floor) else old(floor) - {p}
      ensures Heeded(p)
    {
      hide Good, Nudged, NeedsGet, NeedsSet, Exhausted, Pacing, Less, Tidied, Resolver.Heeded;
      ghost var d := D();
      LessDrop(pendingGet, p);
      LessDrop(pendingSet, p);
      LessDrop(floor, p);
      Settle(p);
      ScanAround(p);
      NudgedBothTidies(W(), d, D());
    }

    /** What is no longer pending for an updated node. */
    method Settle(p: Ptr)
      requires Pacing(clock, cooldown, floor)
      modifies this`pendingGet, this`pendingSet, this`cooldown, this`floor
      ensures pendingGet == if !NeedsGet(A(), p) || Exhausted(A(), old(pendingGet), p) then old(pendingGet) - {p}
              else old(pendingGet)
      ensures pendingSet == if NeedsSet(A(), p) then old(pendingSet) else old(pendingSet) - {p}
      ensures floor == if NeedsSet(A(), p) then old(floor) else old(floor) - {p}
      ensures Pacing(clock, cooldown, floor)
    {
      hide NeedsGet, NeedsSet, Exhausted, Pacing;
      PacingDrop(clock, cooldown, floor, p);
      var settled, setDue := !NeedsGet(A(), p) || Exhausted(A(), pendingGet, p), NeedsSet(A(), p);
      if settled {
        pendingGet := pendingGet - {p};
      }
      if !setDue {
        pendingSet, cooldown, floor := pendingSet - {p}, cooldown - {p}, floor - {p};
      }
    }

    /** A scan for the topmost listener above the node, or for the node itself if it is due. */
    method ScanAround(p: Ptr)
      requires Sane() && Pacing(clock, cooldown, floor)
      modifies this`cooldown, this`stack, this`scanRequested, this`queue, this`walk
      ensures Nudged(W(), false, old(S()), S()) && Pacing(clock, cooldown, floor)
      ensures Heeded(p)
    {
      hide Good, Nudged, Under, Pacing, AheadOf, NearestReset, NeedsGet, NeedsSet, PausedAbove, Requested;
      NudgedNot(W(), S());
      UnderStep(W(), p);
      var top := HighestListener(tree, listeners, p, W());
      if top != 0 {
        if p in tree { AncestorInHeap(W(), top, p); }
        ScanNode(top);
      } else {
        ghost var cooling := cooldown;
        var scan := IsToBeScanned(p);
        if cooldown != cooling { PacingExpire(clock, cooling, floor, p); }
        if scan { ScanNode(p); }
      }
    }

    /** `attribute_store_set_node_attribute_value` as the resolver sees it: the value, and the
        callback if it changed. */
    method Write(p: Ptr, state: ValueState, value: seq<Byte>)
      requires Sane() && Pacing(clock, cooldown, floor)
      modifies this`vals, this`pendingGet, this`pendingSet, this`cooldown, this`floor, this`stack,
               this`scanRequested, this`queue, this`walk
      ensures vals == if p in tree then Written(old(vals), p, state, value) else old(vals)
      ensures Tidied(W(), old(D()), D()) && Pacing(clock, cooldown, floor)
      ensures pendingGet == if GetDropped(old(A()), A(), state, old(pendingGet), p) then old(pendingGet) - {p}
              else old(pendingGet)
      ensures Noticed(old(A()), A(), old(D()), D())
      ensures p in tree && vals != old(vals) && CalledBack(book, tree[p].typ, state) ==> Heeded(p)
    {
      hide Good, Tidied, NeedsGet, NeedsSet, Exhausted, Pacing, Written, Resolver.Heeded, Noticed, CalledBack;
      TidiedNot(W(), D());
      NoticedAll(A(), D());
      if p in tree { WriteExisting(p, state, value); }
    }

    method WriteExisting(p: Ptr, state: ValueState, value: seq<Byte>)
      requires Sane() && Pacing(clock, cooldown, floor) && p in tree
      modifies this`vals, this`pendingGet, this`pendingSet, this`cooldown, this`floor, this`stack,
               this`scanRequested, this`queue, this`walk
      ensures vals == Written(old(vals), p, state, value)
      ensures Tidied(W(), old(D()), D()) && Pacing(clock, cooldown, floor)
      ensures pendingGet == if GetDropped(old(A()), A(), state, old(pendingGet), p) then old(pendingGet) - {p}
              else old(pendingGet)
      ensures Noticed(old(A()), A(), old(D()), D())
      ensures vals != old(vals) && CalledBack(book, tree[p].typ, state) ==> Heeded(p)
    {
      hide Good, Tidied, NeedsGet, NeedsSet, Exhausted, Pacing, Written, Resolver.Heeded, Noticed, CalledBack;
      ghost var a, d := A(), D();
      TidiedNot(W(), d);
      var before := vals;
      vals := Written(vals, p, state, value);
      if vals != before && CalledBack(book, tree[p].typ, state) { OnNodeUpdated(p); }
      NoticedWrite(a, p, state, value, d, D());
    }

    // -- Settling a group -----------------------------------------------------------------

    /** Writing both values of a node. */
    method ChangeOne(p: Ptr, how: Change)
      requires Sane() && p in tree && Pacing(clock, cooldown, floor)
      modifies this`vals, this`pendingGet, this`pendingSet, this`cooldown, this`floor, this`stack,
               this`scanRequested, this`queue, this`walk
      ensures AllChanged(how, {p}, old(vals), vals) && Noticed(old(A()), A(), old(D()), D())
      ensures Tidied(W(), old(D()), D()) && Pacing(clock, cooldown, floor)
    {
      hide Resolver.Heeded, Good, Tidied, Pacing, Written, Noticed, InTurn, HasRule;
      ghost var d, a := D(), A();
      ChangeReported(p, how);
      ghost var e, b := D(), A();
      WrittenAt(vals, p, Desired, []);
      Write(p, Desired, []);
      TidiedTrans(W(), d, e, D());
      OneInTurn(how, p, a, b, A());
      NoticedTwice(a, b, A(), d, e, D());
    }

    method ChangeReported(p: Ptr, how: Change)
      requires Sane() && p in tree && Pacing(clock, cooldown, floor)
      modifies this`vals, this`pendingGet, this`pendingSet, this`cooldown, this`floor, this`stack,
               this`scanRequested, this`queue, this`walk
      ensures forall q :: ValOf(vals, q) == if q == p
              then old(ValOf(vals, q)).(reported := Changed(how, old(ValOf(vals, q))).reported) else old(ValOf(vals, q))
      ensures Noticed(old(A()), A(), old(D()), D()) && Tidied(W(), old(D()), D()) && Pacing(clock, cooldown, floor)
    {
      hide Resolver.Heeded, Good, Tidied, Pacing, Written, Noticed, HasRule;
      TidiedNot(W(), D());
      NoticedAll(A(), D());
      if !how.ClearDesired? {
        var v := ValOf(vals, p);
        var value := if how.ClearBoth? then [] else if v.desired != [] then v.desired else v.reported;
        WrittenAt(vals, p, Reported, value);
        Write(p, Reported, value);
      }
    }

    method ChangeGroup(group: set<Ptr>, how: Change)
      requires Sane() && group <= tree.Keys && Pacing(clock, cooldown, floor)
      modifies this`vals, this`pendingGet, this`pendingSet, this`cooldown, this`floor, this`stack,
               this`scanRequested, this`queue, this`walk
      ensures AllChanged(how, group, old(vals), vals) && Noticed(old(A()), A(), old(D()), D())
      ensures Tidied(W(), old(D()), D()) && Pacing(clock, cooldown, floor)
    {
      hide Good, Tidied, Pacing, AllChanged, Noticed, InTurn;
      ghost var d, a := D(), A();
      TidiedNot(W(), d);
      AllChangedNone(how, vals);
      NoticedAll(a, d);
      var rest := group;
      assert group - rest == {};
      while rest != {}
        invariant rest <= group && Pacing(clock, cooldown, floor)
        invariant AllChanged(how, group - rest, a.vals, vals) && Noticed(a, A(), d, D()) && Tidied(W(), d, D())
        decreases rest
      {
        var p :| p in rest;
        ghost var e, b := D(), A();
        ChangeOne(p, how);
        AllChangedMore(how, group - rest, p, a.vals, b.vals, vals);
        GroupInTurn(how, group - rest, p, a, b, A());
        NoticedTwice(a, b, A(), d, e, D());
        assert group - (rest - {p}) == (group - rest) + {p};
        TidiedTrans(W(), d, e, D());
        rest := rest - {p};
      }
      assert group - rest == group;
    }

    // -- Giving up ------------------------------------------------------------------------

    method GiveUpOne(p: Ptr)
      requires Sane() && p in tree && Pacing(clock, cooldown, floor) && Bounded(pendingGet, tally) &&
               tally.base == retries
      modifies this`vals, this`pendingGet, this`pendingSet, this`cooldown, this`floor, this`tally, this`stack,
               this`scanRequested, this`queue, this`walk
      ensures AllChanged(ClearDesired, {p}, old(vals), vals)
      ensures pendingGet == old(pendingGet)[p := PendingGet(0, retries)] && Bounded(pendingGet, tally) &&
              tally.base == retries
      ensures Tidied(W(), old(D()).(gets := map[]), D().(gets := map[])) && Pacing(clock, cooldown, floor)
      ensures Survived(old(A()), A(), old(D()), D())
      ensures tally.tries == old(tally.tries)[p := TriesGivenUp(old(A()), old(pendingGet), old(tally.tries), p)]
    {
      hide Resolver.Heeded, Good, Pacing, Written, Bounded, Tidied, Less, Survive, GetsSurvive;
      WrittenAt(vals, p, Desired, []);
      ghost var gets, d := pendingGet, D();
      ClearedGet(A(), gets, p);
      TriesWithin(A(), gets, tally, p);
      ghost var tries := TriesGivenUp(A(), gets, tally.tries, p);
      BoundedMore(gets, tally, p, PendingGet(0, retries), tries, tally.highest);
      Write(p, Desired, []);
      TidiedNoGets(W(), d, D());
      assert pendingGet[p := PendingGet(0, retries)] == gets[p := PendingGet(0, retries)];
      tally := Tally(tally.tries[p := tries], tally.highest, tally.base);
      pendingGet := pendingGet[p := PendingGet(0, retries)];
    }

    method GiveUpAll(group: set<Ptr>)
      requires Sane() && Pacing(clock, cooldown, floor) && Bounded(pendingGet, tally) && tally.base == retries &&
               group <= tree.Keys
      modifies this`vals, this`pendingGet, this`pendingSet, this`cooldown, this`floor, this`tally, this`stack,
               this`scanRequested, this`queue, this`walk
      ensures AllChanged(ClearDesired, group, old(vals), vals) && Survived(old(A()), A(), old(D()), D())
      ensures pendingGet == GivenUp(old(pendingGet), group, retries) && Bounded(pendingGet, tally) &&
              tally.base == retries
      ensures tally.tries == AllGivenUp(old(A()), old(pendingGet), old(tally.tries), group)
      ensures Tidied(W(), old(D()).(gets := map[]), D().(gets := map[])) && Pacing(clock, cooldown, floor)
    {
      hide Good, Tidied, Pacing, Bounded, AllChanged, Survived, InTurn, GivenUp, AllGivenUp, TriesGivenUp;
      ghost var d, a, gets, tries := D(), A(), pendingGet, tally.tries;
      TidiedNot(W(), d.(gets := map[]));
      SurvivedAll(a, d);
      AllChangedNone(ClearDesired, vals);
      GivenUpNone(a, gets, tries);
      var rest := group;
      assert group - rest == {};
      while rest != {}
        invariant rest <= group && Pacing(clock, cooldown, floor) && Bounded(pendingGet, tally) &&
                  tally.base == retries
        invariant AllChanged(ClearDesired, group - rest, a.vals, vals) && Survived(a, A(), d, D())
        invariant pendingGet == GivenUp(gets, group - rest, retries) &&
                  tally.tries == AllGivenUp(a, gets, tries, group - rest) &&
                  Tidied(W(), d.(gets := map[]), D().(gets := map[]))
        decreases rest
      {
        var x :| x in rest;
        ghost var e, b := D(), A();
        GivenUpMore(a, b, gets, tries, group - rest, x);
        assert group - (rest - {x}) == (group - rest) + {x};
        GiveUpOne(x);
        AllChangedMore(ClearDesired, group - rest, x, a.vals, b.vals, vals);
        GroupInTurn(ClearDesired, group - rest, x, a, b, A());
        SurvivedTwice(a, b, A(), d, e, D());
        TidiedTrans(W(), d.(gets := map[]), e.(gets := map[]), D().(gets := map[]));
        rest := rest - {x};
      }
      assert group - rest == group;
    }

    /** `give_up_get_resolution_on_group`: every node of the Get group loses its desired value and
        counts as exhausted; the other nodes keep their values and their pending Gets. */
    method GiveUp(p: Ptr)
      requires Sane() && Pacing(clock, cooldown, floor) && Bounded(pendingGet, tally) && tally.base == retries
      modifies this`vals, this`pendingGet, this`pendingSet, this`cooldown, this`floor, this`tally, this`stack,
               this`scanRequested, this`queue, this`walk
      ensures AllChanged(ClearDesired, Group(book, tree, GetRule, p), old(vals), vals)
      ensures pendingGet == GivenUp(old(pendingGet), Group(book, tree, GetRule, p), retries) &&
              Bounded(pendingGet, tally) && tally.base == retries
      ensures tally.tries == AllGivenUp(old(A()), old(pendingGet), old(tally.tries), Group(book, tree, GetRule, p))
      ensures forall q :: q in Group(book, tree, GetRule, p) ==>
              ValOf(vals, q).desired == [] && Exhausted(A(), pendingGet, q)
      ensures Tidied(W(), old(D()).(gets := map[]), D().(gets := map[])) && Pacing(clock, cooldown, floor)
      ensures Survived(old(A()), A(), old(D()), D())
    {
      hide Good, Tidied, Pacing, AllChanged, Bounded, GivenUp, AllGivenUp, Group, Exhausted, Survived;
      GroupInTree(book, tree, GetRule, p);
      var group := GroupNodes(book, tree, GetRule, p, W());
      ghost var v, gets := vals, pendingGet;
      GiveUpAll(group);
      ExhaustedAll(A(), v, gets, group);
    }

    // -- The completion of a frame --------------------------------------------------------

    /** A transmitted Set: the node is to be read again, and after the last frame its group is. */
    method ApplyOk(p: Ptr, group: set<Ptr>, more: bool)
      requires Sane() && Pacing(clock, cooldown, floor) && group <= tree.Keys
      modifies this`vals, this`pendingGet, this`pendingSet, this`cooldown, this`floor, this`stack,
               this`scanRequested, this`queue, this`walk
      ensures OutcomeOf(SendOk, more, group, {p} * tree.Keys, old(vals), vals) && Noticed(old(A()), A(), old(D()), D())
      ensures Tidied(W(), old(D()), D()) && Pacing(clock, cooldown, floor)
    {
      hide Resolver.Heeded, Good, Pacing, Tidied, NeedsSet, AllChanged, Written, Noticed, InTurn;
      ghost var d, a := D(), A();
      WrittenAt(vals, p, Reported, []);
      Write(p, Reported, []);
      if !more {
        ghost var e, b := D(), A();
        ChangeGroup(group, ClearBoth);
        AllChangedIs(ClearBoth, group, b.vals, vals);
        OkInTurn(group, p, a, b, A());
        NoticedTwice(a, b, A(), d, e, D());
        TidiedTrans(W(), d, e, D());
      }
    }

    method ApplySet(status: SendStatus, p: Ptr, more: bool)
      requires Sane() && Pacing(clock, cooldown, floor)
      modifies this`vals, this`pendingGet, this`pendingSet, this`cooldown, this`floor, this`stack,
               this`scanRequested, this`queue, this`walk
      ensures OutcomeOf(status, more, Group(book, tree, SetRule, p), {p} * tree.Keys, old(vals), vals) &&
              Noticed(old(A()), A(), old(D()), D())
      ensures Silent(status) ==> B() == old(B()) && S() == old(S())
      ensures Tidied(W(), old(D()), D()) && Pacing(clock, cooldown, floor)
    {
      hide Good, Pacing, Tidied, Group, AllChanged, OutcomeOf, Noticed;
      GroupInTree(book, tree, SetRule, p);
      var group := GroupNodes(book, tree, SetRule, p, W());
      ghost var v, self := vals, {p} * tree.Keys;
      if status == SendOk {
        ApplyOk(p, group, more);
      } else if status == SendFail || (!more && (status == Verified || status == ExecutionFailed)) {
        var how := if status == SendFail then ClearDesired else if status == Verified then Align else ClearBoth;
        ChangeGroup(group, how);
        GroupChanged(status, more, group, self, how, v, vals);
      } else {
        TidiedNot(W(), D());
        NoticedAll(A(), D());
        NothingChanged(status, more, group, self, v);
      }
    }

    /** The first part of `on_resolver_send_data_complete`: what the status does to the values. */
    method ApplyStatus(status: SendStatus, p: Ptr, rule: RuleType)
      requires Sane() && Pacing(clock, cooldown, floor)
      modifies this`vals, this`pendingGet, this`pendingSet, this`cooldown, this`floor, this`stack,
               this`scanRequested, this`queue, this`walk
      ensures rule == GetRule || Silent(status) ==> B() == old(B()) && S() == old(S())
      ensures rule == SetRule ==> OutcomeOf(status, p == slot.pending && p != 0 && slot.needsMoreFrames,
              Group(book, tree, SetRule, p), {p} * tree.Keys, old(vals), vals)
      ensures Noticed(old(A()), A(), old(D()), D())
      ensures Tidied(W(), old(D()), D()) && Pacing(clock, cooldown, floor)
    {
      hide Good, Pacing, Tidied, Group, OutcomeOf, Noticed;
      TidiedNot(W(), D());
      NoticedAll(A(), D());
      var more := p == slot.pending && p != 0 && slot.needsMoreFrames;
      if rule == SetRule { ApplySet(status, p, more); }
    }

    // -- Deadlines ------------------------------------------------------------------------

    /** The pending Get waits for its next attempt. */
    ghost predicate Retriable(p: Ptr)
      reads this
    {
      p in pendingGet && pendingGet[p].count < Limit(A(), p) && !PausedAbove(W(), p) && NeedsGet(A(), p) &&
          pendingGet[p].timeout != 0
    }

    /** The deadline of the pending Get will be looked at: a scan is requested or leads to the node, or the timer
        is armed or about to be. */
    ghost predicate Attended(p: Ptr)
      reads this
    {
      scanRequested || AheadOf(W(), stack, p) || resumeTimer.Some? || exists i :: 0 <= i < |queue| && queue[i].TimerSet?
    }

    /** Every pending Get is paused, and no Set cools down: there is nothing to set a timer for. */
    ghost predicate Stilled()
      reads this
    {
      cooldown == map[] && forall p :: p in pendingGet ==> PausedAbove(W(), p)
    }

    /** A completion has nothing to do but wait for the report. */
    ghost predicate Quiet(p: Ptr)
      reads this
    {
      Stilled() && p !in pendingSet && p !in rearm && !(NeedsGet(A(), p) && Exhausted(A(), pendingGet, p))
    }

    method NextGetDeadline() returns (next: nat)
      requires Sane()
      modifies this`stack, this`scanRequested, this`queue, this`walk
      ensures Nudged(W(), false, old(S()), S()) && (next == 0 || next > clock)
      ensures forall p :: Retriable(p) ==> Covered(pendingGet[p].timeout, clock, next, scanRequested)
      ensures old(Stilled()) ==> next == 0 && S() == old(S())
    {
      hide Good, Nudged, Limit, HasRule, ValOf, PausedAbove, AheadOf;
      ghost var s := S();
      NudgedNot(W(), s);
      next := 0;
      var rest := pendingGet.Keys;
      while rest != {}
        invariant Nudged(W(), false, s, S()) && (next == 0 || next > clock)
        invariant forall p :: p !in rest && Retriable(p) ==> Covered(pendingGet[p].timeout, clock, next, scanRequested)
        invariant old(Stilled()) ==> next == 0 && S() == s
        decreases rest
      {
        var p :| p in rest;
        rest := rest - {p};
        var off := IsPausedAbove(tree, paused, p, W());
        var t := pendingGet[p].timeout;
        if pendingGet[p].count < Limit(A(), p) && !off && NeedsGet(A(), p) && t != 0 {
          if t <= clock {
            ghost var m := S();
            ScanNode(p);
            NudgedTrans(W(), false, false, s, m, S());
          } else if t < next || next == 0 {
            next := t;
          }
        }
      }
    }

    method NextSetDeadline(first: nat) returns (next: nat)
      requires Sane() && (first == 0 || first > clock)
      modifies this`stack, this`scanRequested, this`queue, this`walk
      ensures Nudged(W(), false, old(S()), S()) && (next == 0 || next > clock) &&
              (first != 0 ==> next != 0 && next <= first)
      ensures forall p :: p in cooldown ==> p == 0 || Covered(cooldown[p], clock, next, scanRequested)
      ensures old(scanRequested) ==> scanRequested
      ensures old(Stilled()) ==> next == first && S() == old(S())
    {
      hide Good, Nudged, AheadOf;
      ghost var s := S();
      NudgedNot(W(), s);
      next := first;
      var rest := cooldown.Keys;
      while rest != {}
        invariant Nudged(W(), false, s, S()) && (next == 0 || next > clock) &&
                  (first != 0 ==> next != 0 && next <= first)
        invariant forall p :: p in cooldown && p !in rest ==> p == 0 || Covered(cooldown[p], clock, next, scanRequested)
        invariant old(scanRequested) ==> scanRequested
        invariant old(Stilled()) ==> next == first && S() == s
        decreases rest
      {
        var p :| p in rest;
        rest := rest - {p};
        if clock >= cooldown[p] {
          ghost var m := S();
          ScanNode(p);
          NudgedTrans(W(), false, false, s, m, S());
        } else if cooldown[p] < next || next == 0 {
          next := cooldown[p];
        }
      }
    }

    /** `attribute_resolver_restart_pending_get_nodes_timer`: no deadline of a pending Get or of a
        cooldown is missed. */
    method RestartTimer()
      requires Sane()
      modifies this`stack, this`scanRequested, this`queue, this`walk
      ensures Nudged(W(), false, old(S()), S())
      ensures forall p :: Retriable(p) ==> Alarmed(pendingGet[p].timeout, clock, queue, scanRequested)
      ensures forall p :: p in cooldown && p != 0 ==> Alarmed(cooldown[p], clock, queue, scanRequested)
      ensures old(Stilled()) ==> S() == old(S())
    {
      hide Good, Nudged, Limit, NeedsGet, PausedAbove;
      ghost var s := S();
      var next := NextGetDeadline();
      ghost var m := S();
      next := NextSetDeadline(next);
      NudgedTrans(W(), false, false, s, m, S());
      if next != 0 && clock < next {
        AlarmNudges(W(), s, S(), TimerSet(next - clock));
        queue := queue + [TimerSet(next - clock)];
      }
    }

    // -- The completion of a rule ---------------------------------------------------------

    /** The Get part of a completion: wait for the report, or give up after the last attempt. */
    method FinishGet(p: Ptr)
      requires Sane() && Pacing(clock, cooldown, floor) && Bounded(pendingGet, tally) && tally.base == retries
      modifies this`vals, this`pendingGet, this`pendingSet, this`cooldown, this`floor, this`tally, this`stack,
               this`scanRequested, this`queue, this`walk
      ensures Bounded(pendingGet, tally) && tally.base == retries && Pacing(clock, cooldown, floor)
      ensures Tidied(W(), old(D()).(gets := map[]), D().(gets := map[]))
      ensures GetPart(old(A()), old(B()), A(), B(), p, clock + retryTimeout)
      ensures old(Quiet(p)) ==> S() == old(S()) && p !in pendingSet && p !in rearm
    {
      hide Good, Pacing, Bounded, NeedsGet, Tidied, Limit, GetPart;
      TidiedNot(W(), D().(gets := map[]));
      GetPartNone(A(), B(), p, clock + retryTimeout);
      if p in pendingGet && NeedsGet(A(), p) {
        GetPartWaits(A(), B(), p, clock + retryTimeout);
        var last := pendingGet[p].count >= Limit(A(), p);
        if last { FinishLastGet(p); } else { WaitForReport(p); }
      }
    }

    /** The last attempt: the report is awaited, and the group is given up. */
    method FinishLastGet(p: Ptr)
      requires Sane() && Pacing(clock, cooldown, floor) && Bounded(pendingGet, tally) && tally.base == retries
      requires p in pendingGet && NeedsGet(A(), p) && pendingGet[p].count >= Limit(A(), p)
      modifies this`vals, this`pendingGet, this`pendingSet, this`cooldown, this`floor, this`tally, this`stack,
               this`scanRequested, this`queue, this`walk
      ensures Bounded(pendingGet, tally) && tally.base == retries && Pacing(clock, cooldown, floor)
      ensures Tidied(W(), old(D()).(gets := map[]), D().(gets := map[]))
      ensures GetPart(old(A()), old(B()), A(), B(), p, clock + retryTimeout)
    {
      hide Good, Pacing, Bounded, NeedsGet, Group, AllChanged, Tidied, Limit, Survived, GetPart, Resolver.Retriable,
           Resolver.Stilled, Alarmed, PausedAbove, Exhausted, Survive, Less,
           AllGivenUp, GivenUp;
      ghost var d, a, b := D(), A(), B();
      AwaitLast(p);
      ghost var e := D();
      GiveUpAndTell(p);
      TidiedTrans(W(), d.(gets := map[]), e.(gets := map[]), D().(gets := map[]));
      TidiedLess(W(), d.(gets := map[]), D().(gets := map[]));
      GetPartGivesUp(a, b, A(), B(), e, D(), p, clock + retryTimeout);
    }

    /** The report of the last attempt is awaited as well. */
    method AwaitLast(p: Ptr)
      requires Sane() && Bounded(pendingGet, tally) && p in pendingGet
      modifies this`pendingGet, this`stack, this`scanRequested, this`queue, this`walk
      ensures Bounded(pendingGet, tally) && Tidied(W(), old(D()).(gets := map[]), D().(gets := map[]))
      ensures pendingGet == old(pendingGet)[p := old(pendingGet)[p].(timeout := clock + retryTimeout)]
    {
      hide Good, Bounded, Tidied, Resolver.Retriable, Resolver.Stilled, Alarmed;
      WaitForReport(p);
    }

    /** The report is awaited until the retry timeout. */
    method WaitForReport(p: Ptr)
      requires Sane() && Bounded(pendingGet, tally) && p in pendingGet
      modifies this`pendingGet, this`stack, this`scanRequested, this`queue, this`walk
      ensures Bounded(pendingGet, tally) && pendingGet ==
              old(pendingGet)[p := old(pendingGet)[p].(timeout := clock + retryTimeout)]
      ensures Tidied(W(), old(D()).(gets := map[]), D().(gets := map[]))
      ensures forall q :: Retriable(q) ==> Alarmed(pendingGet[q].timeout, clock, queue, scanRequested)
      ensures old(Stilled()) ==> S() == old(S())
    {
      hide Good, Bounded, Nudged, Tidied, Resolver.Retriable, Alarmed, PausedAbove;
      ghost var d := D().(gets := map[]);
      BoundedTimeout(pendingGet, tally, p, clock + retryTimeout);
      pendingGet := pendingGet[p := pendingGet[p].(timeout := clock + retryTimeout)];
      RestartTimer();
      NudgedTidies(W(), d, D().(gets := map[]));
    }

    /** Giving up, and a scan for a listener that may be waiting for it. */
    method GiveUpAndTell(p: Ptr)
      requires Sane() && Pacing(clock, cooldown, floor) && Bounded(pendingGet, tally) && tally.base == retries
      modifies this`vals, this`pendingGet, this`pendingSet, this`cooldown, this`floor, this`tally, this`stack,
               this`scanRequested, this`queue, this`walk
      ensures AllChanged(ClearDesired, Group(book, tree, GetRule, p), old(vals), vals)
      ensures pendingGet == GivenUp(old(pendingGet), Group(book, tree, GetRule, p), retries)
      ensures tally.tries == AllGivenUp(old(A()), old(pendingGet), old(tally.tries), Group(book, tree, GetRule, p))
      ensures Bounded(pendingGet, tally) && tally.base == retries && Pacing(clock, cooldown, floor)
      ensures Tidied(W(), old(D()).(gets := map[]), D().(gets := map[]))
      ensures Survived(old(A()), A(), old(D()), D())
    {
      hide Good, Pacing, Bounded, Group, AllChanged, GivenUp, AllGivenUp, Tidied, Nudged, ValOf, Under, AheadOf,
           Limit, Survive;
      ghost var d := D().(gets := map[]);
      GiveUp(p);
      ghost var e := D().(gets := map[]);
      var top := HighestListener(tree, listeners, p, W());
      ScanNode(top);
      NudgedTidies(W(), e, D().(gets := map[]));
      TidiedTrans(W(), d, e, D().(gets := map[]));
    }

    /** The Set part of a completion: the node is no longer pending, and after a frame that is not the
        last one it is resolved again. */
    method FinishSet(p: Ptr) returns (single: bool)
      requires Sane()
      modifies this`pendingSet, this`stack, this`scanRequested, this`queue, this`walk
      ensures single <==> p in old(pendingSet) && !old(pendingSet)[p]
      ensures pendingSet == old(pendingSet) - {p}
      ensures Nudged(W(), false, old(S()), S())
      ensures p !in old(pendingSet) ==> S() == old(S())
    {
      hide Good, Nudged;
      NudgedNot(W(), S());
      single := p in pendingSet && !pendingSet[p];
      var again := p in pendingSet && pendingSet[p];
      pendingSet := pendingSet - {p};
      if again { ScanNode(p); }
    }

    /** A re-arm that was requested while the Set was in flight is consumed. */
    method ConsumeRearm(p: Ptr)
      requires Sane() && Pacing(clock, cooldown, floor)
      modifies this`rearm, this`vals, this`pendingGet, this`pendingSet, this`cooldown, this`floor, this`stack,
               this`scanRequested, this`queue, this`walk
      ensures rearm == old(rearm) - {p}
      ensures vals == if p in old(rearm) && p in tree then Written(old(vals), p, Desired, [old(rearm)[p]])
              else old(vals)
      ensures p !in old(rearm) ==> pendingGet == old(pendingGet)
      ensures Tidied(W(), old(D()), D()) && Pacing(clock, cooldown, floor)
      ensures p !in old(rearm) ==> D() == old(D())
    {
      hide Resolver.Heeded, Good, Tidied, Pacing, NeedsSet, Written;
      TidiedNot(W(), D());
      if p in rearm {
        var count := rearm[p];
        rearm := rearm - {p};
        Write(p, Desired, [count]);
      }
    }

    /** A Set that is still due after a single frame waits. */
    method PaceSet(p: Ptr, single: bool)
      requires Sane() && Pacing(clock, cooldown, floor)
      modifies this`cooldown, this`floor, this`stack, this`scanRequested, this`queue, this`walk
      ensures Nudged(W(), false, old(S()), S()) && Pacing(clock, cooldown, floor)
      ensures single && NeedsSet(A(), p) ==> p in floor && floor[p] == clock + SET_RETRY_BACKOFF
      ensures floor == if !single then old(floor) else if NeedsSet(A(), p)
              then old(floor)[p := clock + SET_RETRY_BACKOFF] else old(floor) - {p}
      ensures single && NeedsSet(A(), p) && p != 0 ==>
              p in cooldown && Alarmed(cooldown[p], clock, queue, scanRequested)
      ensures !single ==> S() == old(S())
    {
      hide Good, Nudged, Pacing, NeedsSet;
      NudgedNot(W(), S());
      if single {
        PacingStart(clock, cooldown, floor, p, clock + SET_RETRY_BACKOFF);
        PacingDrop(clock, cooldown, floor, p);
        if NeedsSet(A(), p) {
          cooldown, floor := cooldown[p := clock + SET_RETRY_BACKOFF], floor[p := clock + SET_RETRY_BACKOFF];
          RestartTimer();
        } else {
          cooldown, floor := cooldown - {p}, floor - {p};
        }
      }
    }

    /** A listener is told if and only if nothing below its node is left to resolve; and a scan that
        is under way goes on. */
    method Announce(p: Ptr)
      requires Sane()
      modifies this`queue, this`walk
      ensures Nudged(W(), true, old(S()), S()) && (stack != [] ==> Next in queue)
      ensures S() == Announced(old(S()), p, p in listeners && AllSettled(W(), A(), pendingGet, p))
    {
      hide Good, AllSettled, Nudged;
      ghost var s, tell := S(), p in listeners && AllSettled(W(), A(), pendingGet, p);
      if p in listeners {
        var due := NodeOrChildNeedsResolution(A(), pendingGet, p, W());
        if !due {
          queue := queue + [Watch(p)];
          walk := walk.(told := walk.told + [p], honest := walk.honest && AllSettled(W(), A(), pendingGet, p));
        }
      }
      if stack != [] { queue := queue + [Next]; }
      TellNudges(W(), s, p, tell);
      assert queue == Announced(s, p, tell).queue;
    }

    /** The Set part of a completion, the re-arm and the pacing. A re-arm is consumed before the pacing
        looks at whether the Set is still due. */
    method FinishSets(p: Ptr)
      requires Sane() && Pacing(clock, cooldown, floor)
      modifies this`vals, this`pendingGet, this`pendingSet, this`cooldown, this`floor, this`rearm, this`stack,
               this`scanRequested, this`queue, this`walk
      ensures Tidied(W(), old(D()).(floor := map[]), D().(floor := map[])) && Pacing(clock, cooldown, floor)
      ensures SetPart(old(B()), A(), B(), p, clock + SET_RETRY_BACKOFF)
      ensures p !in old(pendingSet) && p !in old(rearm) ==> S() == old(S())
    {
      hide Good, Pacing, NeedsSet, Tidied, Nudged, Written;
      ghost var d := D();
      var single := EndSet(p);
      ghost var f := D();
      TidiedLess(W(), d, f);
      PaceSet(p, single);
      TidiedThenPaced(W(), d, f, D());
    }

    /** The pending Set is over, and a re-arm is consumed. */
    method EndSet(p: Ptr) returns (single: bool)
      requires Sane() && Pacing(clock, cooldown, floor)
      modifies this`vals, this`pendingGet, this`pendingSet, this`cooldown, this`floor, this`rearm, this`stack,
               this`scanRequested, this`queue, this`walk
      ensures single <==> p in old(pendingSet) && !old(pendingSet)[p]
      ensures Tidied(W(), old(D()), D()) && Pacing(clock, cooldown, floor) && p !in pendingSet
      ensures rearm == old(rearm) - {p}
      ensures vals == if p in old(rearm) && p in tree then Written(old(vals), p, Desired, [old(rearm)[p]])
              else old(vals)
      ensures p !in old(rearm) ==> pendingGet == old(pendingGet)
      ensures p !in old(floor) ==> p !in floor
      ensures p !in old(pendingSet) && p !in old(rearm) ==> S() == old(S())
    {
      hide Good, Pacing, Tidied, Nudged, Written, Less;
      ghost var d := D();
      LessDrop(pendingSet, p);
      single := FinishSet(p);
      ghost var e := D();
      NudgedDropTidies(W(), d, e);
      ConsumeRearm(p);
      StillDropped(W(), e, D(), p);
      TidiedTrans(W(), d, e, D());
    }

    /** The completion up to the point where the listener is told. */
    method Finish(p: Ptr)
      requires Sane() && Pacing(clock, cooldown, floor) && Bounded(pendingGet, tally) && tally.base == retries
      modifies this`vals, this`pendingGet, this`pendingSet, this`cooldown, this`floor, this`tally, this`rearm,
               this`stack, this`scanRequested, this`queue, this`walk
      ensures Bounded(pendingGet, tally) && tally.base == retries && Pacing(clock, cooldown, floor)
      ensures Tidied(W(), old(D()).(gets := map[], floor := map[]), D().(gets := map[], floor := map[]))
      ensures Completed(old(A()), old(B()), A(), B(), p, clock, retryTimeout)
      ensures old(Quiet(p)) ==> S() == old(S())
    {
      hide Good, Pacing, Bounded, Tidied, GetPart, SetPart, Completed, Resolver.Quiet;
      ghost var d, a, b := D(), A(), B();
      FinishGet(p);
      ghost var e, m, n := D(), A(), B();
      FinishSets(p);
      TidiedTwice(W(), d, e, D(), tally);
      PartsComplete(a, b, m, n, A(), B(), p, clock, retryTimeout);
    }

    /** `on_resolver_rule_execute_complete`. */
    method OnComplete(p: Ptr)
      requires Sane() && Pacing(clock, cooldown, floor) && Bounded(pendingGet, tally) && tally.base == retries
      modifies this`vals, this`pendingGet, this`pendingSet, this`cooldown, this`floor, this`tally, this`rearm,
               this`stack, this`scanRequested, this`queue, this`walk
      ensures Bounded(pendingGet, tally) && tally.base == retries && Pacing(clock, cooldown, floor)
      ensures Completed(old(A()), old(B()), A(), B(), p, clock, retryTimeout)
      // The walk goes on, and the listener is told if and only if its subtree is settled.
      ensures Nudged(W(), true, old(S()), S()) && (stack != [] ==> Next in queue)
      ensures TellsOf(if p in listeners && AllSettled(W(), A(), pendingGet, p) then {p} else {}, old(queue), queue)
      ensures old(Quiet(p)) ==> S() == Announced(old(S()), p, p in listeners && AllSettled(W(), A(), pendingGet, p))
    {
      hide Good, Pacing, Bounded, Tidied, Nudged, AllSettled, Less, TellsOf, Completed, Resolver.Quiet;
      ghost var d := D().(gets := map[], floor := map[]);
      Finish(p);
      ghost var e := D().(gets := map[], floor := map[]);
      TidiedLess(W(), d, e);
      Announce(p);
      NudgedTrans(W(), false, true, d.sched, e.sched, S());
      Tells(W(), d.sched, e.sched, p, p in listeners && AllSettled(W(), A(), pendingGet, p));
    }

    /** The status of an attempt to resolve the node now. */
    ghost function AttemptStatus(p: Ptr, env: Frame): Status
      reads this, slot
    {
      AttemptStatusOf(A(), pendingGet, pendingSet, cooldown, clock, slot.state == Idle, p, env)
    }

    /** An attempt to resolve the node now claims the slot: a rule runs, and its frame would be taken. */
    ghost predicate WouldClaim(p: Ptr)
      reads this, slot
    {
      Taken(AttemptStatus(p, Accepted(false)))
    }

    // -- Executing a rule -----------------------------------------------------------------

    /** `on_resolver_send_data_complete`, called by the sender while it rejects the frame. */
    method CompleteAtOnce(status: SendStatus, p: Ptr, rule: RuleType)
      requires Sane() && InOrder() && slot.Valid() && slot.pending == p && p != 0
      modifies slot`state, slot`pending, slot`timer, slot`due, slot`log, this`vals, this`pendingGet, this`pendingSet,
               this`cooldown, this`floor, this`tally, this`rearm, this`stack, this`scanRequested, this`queue, this`walk
      ensures InOrder() && slot.Valid() && slot.state == Idle && slot.pending == NOBODY && slot.due == old(slot.due)
      ensures NoClaim(old(slot.log), slot.log)
      ensures Less(old(pendingSet), pendingSet) && Nudged(W(), true, old(S()), S())
    {
      hide Good, Pacing, Bounded, Tidied, Nudged, AllSettled, Less, TellsOf, OutcomeOf, Group, SlotOk, Completed,
           Noticed, NoClaim;
      ghost var d, gets := D(), pendingGet;
      ApplyStatus(status, p, rule);
      TidiedLess(W(), d, D());
      BoundedLess(gets, pendingGet, tally);
      ghost var e := D();
      var released := slot.ReleaseAndCall(p);
      ghost var a, b := A(), B();
      OnComplete(p);
      CompletedSets(a, b, A(), B(), p, clock, retryTimeout);
      LessTrans(d.sets, e.sets, pendingSet);
      NudgedTrans(W(), false, true, d.sched, e.sched, S());
    }

    /** The second phase of `attribute_resolver_rule_execute`. */
    method Transmit(p: Ptr, rule: RuleType, env: Frame) returns (status: Status)
      requires Sane() && InOrder() && slot.Valid() && slot.executing && slot.pending == p && p != 0
      modifies slot`state, slot`pending, slot`needsMoreFrames, slot`timer, slot`due, slot`executing, slot`acceptedAt,
               slot`log, this`vals, this`pendingGet, this`pendingSet, this`cooldown, this`floor, this`tally,
               this`rearm, this`stack, this`scanRequested, this`queue, this`walk
      ensures InOrder() && slot.Valid() && !slot.executing && slot.due == old(slot.due)
      ensures status == Answer(env)
      ensures Less(old(pendingSet), pendingSet) && Nudged(W(), true, old(S()), S())
      ensures if env.Accepted? then E() == old(E()).(executing := false, more := env.more) && B() == old(B()) &&
              tally == old(tally)
              else slot.state == Idle && slot.pending == NOBODY
      ensures NoClaim(old(slot.log), slot.log)
    {
      hide Good, Orderly, Nudged, Less, SlotOk, NoClaim;
      NoClaimAfter(slot.log, p);
      NudgedIsLoud(W(), S());
      LessDrop(pendingSet, p);
      if env.Accepted? {
        slot.Accept(env.more, clock);
      } else {
        if env.Rejected? && env.sync.Some? { CompleteAtOnce(env.sync.value, p, rule); }
        NoClaimAfter(slot.log, p);
        NoClaimTrans(old(slot.log), slot.log, slot.log + [Withdrawn(p)]);
        slot.Withdraw(p);
      }
      status := Answer(env);
    }

    /** The slot is claimed for the rule, and the rule runs. A Set rule runs no sooner than the pacing
        allows. */
    method RunRule(p: Ptr, rule: RuleType, env: Frame) returns (status: Status)
      requires Sane() && InOrder() && slot.Valid() && !slot.executing && slot.state == Idle && p != 0
      requires rule == SetRule && p in floor ==> floor[p] <= clock
      modifies slot`state, slot`pending, slot`needsMoreFrames, slot`timer, slot`due, slot`executing, slot`acceptedAt,
               slot`log, this`paced, this`vals, this`pendingGet, this`pendingSet, this`cooldown, this`floor,
               this`tally, this`rearm, this`stack, this`scanRequested, this`queue, this`walk
      ensures InOrder() && slot.Valid() && status == Answer(env)
      ensures Ran(W(), rule, p, env.Accepted?, old(E()), E())
      ensures env.Accepted? ==> B() == old(B()) && tally == old(tally) && slot.needsMoreFrames == More(env)
      ensures slot.log != old(slot.log)
    {
      hide Good, Orderly, Nudged, Less, SlotOk, NoClaim, Executed;
      slot.Claim(p, rule);
      status := Transmit(p, rule, env);
      ClaimedOnce(p, old(slot.log), slot.log);
      paced := paced && !(rule == SetRule && p in old(floor) && clock < old(floor)[p]);
    }

    /** `attribute_resolver_rule_execute` */
    method Execute(p: Ptr, rule: RuleType, env: Frame) returns (status: Status)
      requires Sane() && InOrder() && slot.Valid() && !slot.executing && p in tree
      requires rule == SetRule && p in floor ==> floor[p] <= clock
      modifies slot`state, slot`pending, slot`needsMoreFrames, slot`timer, slot`due, slot`executing, slot`acceptedAt,
               slot`log, this`paced, this`vals, this`pendingGet, this`pendingSet, this`cooldown, this`floor,
               this`tally, this`rearm, this`stack, this`scanRequested, this`queue, this`walk
      ensures InOrder() && slot.Valid()
      ensures status == old(RuleStatus(A(), slot.state == Idle, p, rule, env)) &&
              (Taken(status) ==> status == Answer(env))
      ensures Ran(W(), rule, p, Taken(status), old(E()), E())
      ensures Taken(status) ==> B() == old(B()) && tally == old(tally) && slot.needsMoreFrames == More(env)
      ensures slot.log != old(slot.log) <==> Taken(old(RuleStatus(A(), slot.state == Idle, p, rule, Accepted(false))))
    {
      hide Good, Orderly, Nudged, Less, SlotOk, Ran;
      RanNot(W(), rule, p, E());
      if tree[p].typ !in book.rule {
        status := NotFound;
      } else if slot.state != Idle {
        status := Busy;
      } else if !HasRule(book, tree[p].typ, rule) {
        status := NotSupported;
      } else {
        status := RunRule(p, rule, env);
      }
    }

    /** `resolution_already_queued` */
    method AlreadyQueued(p: Ptr, rule: RuleType) returns (r: bool)
      requires Sane()
      ensures r <==> Queued(A(), pendingGet, pendingSet, p, rule)
    {
      hide Good, Group;
      var group := GroupNodes(book, tree, rule, p, W());
      r := exists a :: a in group && if rule == GetRule then a in pendingGet else a in pendingSet;
    }

    /** The first attempt of a Get. */
    method FirstGet(p: Ptr, env: Frame) returns (status: Status)
      requires Sane() && InOrder() && slot.Valid() && !slot.executing && p in tree
      modifies slot`state, slot`pending, slot`needsMoreFrames, slot`timer, slot`due, slot`executing, slot`acceptedAt,
               slot`log, this`paced, this`vals, this`pendingGet, this`pendingSet, this`cooldown, this`floor,
               this`tally, this`rearm, this`stack, this`scanRequested, this`queue, this`walk
      ensures InOrder() && slot.Valid() && status == old(RuleStatus(A(), slot.state == Idle, p, GetRule, env))
      ensures Ran(W(), GetRule, p, Taken(status), old(E()), E())
      ensures Taken(status) ==> B() == old(B()).(gets := old(pendingGet)[p := PendingGet(0, 1)],
              tries := old(tally.tries)[p := Tries(1, 0)]) && slot.needsMoreFrames == More(env)
      ensures slot.log != old(slot.log) <==> Taken(old(RuleStatus(A(), slot.state == Idle, p, GetRule,
              Accepted(false))))
    {
      hide Good, Orderly, Nudged, Less, SlotOk, Ran, RuleStatus;
      ghost var a := E();
      status := Execute(p, GetRule, env);
      ghost var b := E();
      RecordFirstGet(p, status);
      RanOn(W(), GetRule, p, Taken(status), a, b, E());
    }

    /** The entry for the first attempt; without a frame the node is tried again later. */
    method RecordFirstGet(p: Ptr, status: Status)
      requires Sane() && InOrder()
      modifies this`pendingGet, this`tally, this`stack, this`scanRequested, this`queue, this`walk
      ensures InOrder() && Nudged(W(), false, old(S()), S())
      ensures Taken(status) ==>
              S() == old(S()) && pendingGet == old(pendingGet)[p := PendingGet(0, 1)] &&
              tally.tries == old(tally.tries)[p := Tries(1, 0)]
      ensures status == IsWaiting ==> pendingGet == old(pendingGet)[p := PendingGet(clock + WAITING_BACKOFF, 0)]
      ensures !Taken(status) && status != IsWaiting ==> pendingGet == old(pendingGet)
    {
      hide Good, Bounded, Pacing, Nudged, Resolver.Retriable, Alarmed;
      NudgedNot(W(), S());
      if Taken(status) {
        AddPendingGet(p, PendingGet(0, 1), 1);
      } else if status == IsWaiting {
        AddPendingGet(p, PendingGet(clock + WAITING_BACKOFF, 0), 0);
        RestartTimer();
      }
    }

    method AddPendingGet(p: Ptr, g: PendingGet, ghost n: nat)
      requires Bounded(pendingGet, tally) && n <= g.count <= 1
      modifies this`pendingGet, this`tally
      ensures Bounded(pendingGet, tally) && pendingGet == old(pendingGet)[p := g] &&
              tally == old(tally).(tries := old(tally).tries[p := Tries(n, 0)])
    {
      BoundedMore(pendingGet, tally, p, g, Tries(n, 0), tally.highest);
      pendingGet, tally := pendingGet[p := g], tally.(tries := tally.tries[p := Tries(n, 0)]);
    }

    /** A further attempt of a Get. The count is an 8-bit number and does not wrap around. */
    method RetryGet(p: Ptr, env: Frame) returns (status: Status)
      requires Sane() && InOrder() && slot.Valid() && !slot.executing && p in tree
      requires p in pendingGet && pendingGet[p].count < Limit(A(), p)
      modifies slot`state, slot`pending, slot`needsMoreFrames, slot`timer, slot`due, slot`executing, slot`acceptedAt,
               slot`log, this`paced, this`vals, this`pendingGet, this`pendingSet, this`cooldown, this`floor,
               this`tally, this`rearm, this`stack, this`scanRequested, this`queue, this`walk
      ensures InOrder() && slot.Valid() && status == old(RuleStatus(A(), slot.state == Idle, p, GetRule, env))
      ensures Ran(W(), GetRule, p, Taken(status), old(E()), E())
      ensures Taken(status) ==> B() == TakenBooks(old(B()), GetRule, p, false) && slot.needsMoreFrames == More(env)
      ensures slot.log != old(slot.log) <==> Taken(old(RuleStatus(A(), slot.state == Idle, p, GetRule,
              Accepted(false))))
    {
      hide Good, Orderly, Nudged, Less, SlotOk, Ran, RuleStatus;
      CountRetry(p);
      status := Execute(p, GetRule, env);
      if Taken(status) { CountRun(p); }
    }

    /** The count of a retry, before the rule runs. */
    method CountRetry(p: Ptr)
      requires InOrder() && p in pendingGet && pendingGet[p].count < Limit(A(), p)
      modifies this`pendingGet, this`tally
      ensures InOrder() && pendingGet == old(pendingGet)[p :=
              old(pendingGet)[p].(count := old(pendingGet)[p].count + 1)]
      ensures tally.tries == old(tally.tries) && p in tally.tries &&
              Within(pendingGet[p], TriedOnce(pendingGet, tally.tries, p)[p], tally.highest, tally.base)
      ensures pendingGet[p].count <= 255 && tally.highest == Max(old(tally.highest), old(Limit(A(), p)))
    {
      hide Pacing, Limit, Within;
      ghost var high := Max(tally.highest, Limit(A(), p));
      var g := pendingGet[p].(count := pendingGet[p].count + 1);
      WithinRetried(pendingGet[p], tally.tries[p], tally.highest, high, tally.base);
      BoundedMore(pendingGet, tally, p, g, tally.tries[p], high);
      assert tally.tries[p := tally.tries[p]] == tally.tries;
      tally := Tally(tally.tries, high, tally.base);
      pendingGet := pendingGet[p := g];
    }

    /** The execution that was counted is accepted. */
    ghost method CountRun(p: Ptr)
      requires InOrder() && p in pendingGet && p in tally.tries &&
               Within(pendingGet[p], TriedOnce(pendingGet, tally.tries, p)[p], tally.highest, tally.base)
      modifies this`tally
      ensures InOrder() && tally.tries == TriedOnce(pendingGet, old(tally.tries), p)
    {
      hide Pacing, Within;
      var tries := TriedOnce(pendingGet, tally.tries, p);
      BoundedMore(pendingGet, tally, p, pendingGet[p], tries[p], tally.highest);
      assert pendingGet[p := pendingGet[p]] == pendingGet;
      tally := tally.(tries := tries);
    }

    /** `execute_get` */
    method ExecuteGet(p: Ptr, env: Frame) returns (status: Status)
      requires Sane() && InOrder() && slot.Valid() && !slot.executing && p in tree
      modifies slot`state, slot`pending, slot`needsMoreFrames, slot`timer, slot`due, slot`executing, slot`acceptedAt,
               slot`log, this`paced, this`vals, this`pendingGet, this`pendingSet, this`cooldown, this`floor,
               this`tally, this`rearm, this`stack, this`scanRequested, this`queue, this`walk
      ensures InOrder() && slot.Valid() && status ==
              old(GetStatus(A(), pendingGet, pendingSet, clock, slot.state == Idle, p, env))
      ensures Taken(status) ==> B() == TakenBooks(old(B()), GetRule, p, false) && slot.needsMoreFrames == More(env)
      ensures Ran(W(), GetRule, p, Taken(status), old(E()), E())
      ensures slot.log != old(slot.log) <==>
              Taken(old(GetStatus(A(), pendingGet, pendingSet, clock, slot.state == Idle, p, Accepted(false))))
    {
      hide Good, Orderly, SlotOk, Ran, GetStatus, TakenBooks;
      if p in pendingGet {
        status := GetIfTimedOut(p, env);
      } else {
        status := GetUnlessQueued(p, env);
      }
    }

    method GetIfTimedOut(p: Ptr, env: Frame) returns (status: Status)
      requires Sane() && InOrder() && slot.Valid() && !slot.executing && p in tree && p in pendingGet
      modifies slot`state, slot`pending, slot`needsMoreFrames, slot`timer, slot`due, slot`executing, slot`acceptedAt,
               slot`log, this`paced, this`vals, this`pendingGet, this`pendingSet, this`cooldown, this`floor,
               this`tally, this`rearm, this`stack, this`scanRequested, this`queue, this`walk
      ensures InOrder() && slot.Valid() && status ==
              old(GetStatus(A(), pendingGet, pendingSet, clock, slot.state == Idle, p, env))
      ensures Taken(status) ==> B() == TakenBooks(old(B()), GetRule, p, false) && slot.needsMoreFrames == More(env)
      ensures Ran(W(), GetRule, p, Taken(status), old(E()), E())
      ensures slot.log != old(slot.log) <==>
              Taken(old(GetStatus(A(), pendingGet, pendingSet, clock, slot.state == Idle, p, Accepted(false))))
    {
      hide Good, Orderly, Nudged, Less, SlotOk, Ran, Limit, Queued, RuleStatus;
      RanNot(W(), GetRule, p, E());
      if pendingGet[p].count >= Limit(A(), p) {
        status := Abort;
      } else if clock >= pendingGet[p].timeout && pendingGet[p].timeout != 0 {
        status := RetryGet(p, env);
      } else {
        status := IsWaiting;
      }
    }

    method GetUnlessQueued(p: Ptr, env: Frame) returns (status: Status)
      requires Sane() && InOrder() && slot.Valid() && !slot.executing && p in tree && p !in pendingGet
      modifies slot`state, slot`pending, slot`needsMoreFrames, slot`timer, slot`due, slot`executing, slot`acceptedAt,
               slot`log, this`paced, this`vals, this`pendingGet, this`pendingSet, this`cooldown, this`floor,
               this`tally, this`rearm, this`stack, this`scanRequested, this`queue, this`walk
      ensures InOrder() && slot.Valid() && status ==
              old(GetStatus(A(), pendingGet, pendingSet, clock, slot.state == Idle, p, env))
      ensures Taken(status) ==> B() == TakenBooks(old(B()), GetRule, p, false) && slot.needsMoreFrames == More(env)
      ensures Ran(W(), GetRule, p, Taken(status), old(E()), E())
      ensures slot.log != old(slot.log) <==>
              Taken(old(GetStatus(A(), pendingGet, pendingSet, clock, slot.state == Idle, p, Accepted(false))))
    {
      hide Good, Orderly, Nudged, Less, SlotOk, Ran, Limit, Queued, RuleStatus;
      RanNot(W(), GetRule, p, E());
      var queued := AlreadyQueued(p, GetRule);
      if queued {
        status := IsWaiting;
      } else {
        status := FirstGet(p, env);
      }
    }

    /** The Set rule runs, and the node is pending if its frame is taken. */
    method SetNow(p: Ptr, env: Frame) returns (status: Status)
      requires Sane() && InOrder() && slot.Valid() && !slot.executing && p in tree
      requires p in floor ==> floor[p] <= clock
      modifies slot`state, slot`pending, slot`needsMoreFrames, slot`timer, slot`due, slot`executing, slot`acceptedAt,
               slot`log, this`paced, this`vals, this`pendingGet, this`pendingSet, this`cooldown, this`floor,
               this`tally, this`rearm, this`stack, this`scanRequested, this`queue, this`walk
      ensures InOrder() && slot.Valid() && status == old(RuleStatus(A(), slot.state == Idle, p, SetRule, env))
      ensures Ran(W(), SetRule, p, Taken(status), old(E()),
              E().(sets := if Taken(status) then old(pendingSet) else pendingSet))
      ensures Taken(status) ==>
              B() == TakenBooks(old(B()), SetRule, p, More(env)).(cooldown := old(cooldown)) &&
              slot.needsMoreFrames == More(env)
      ensures slot.log != old(slot.log) <==> Taken(old(RuleStatus(A(), slot.state == Idle, p, SetRule,
              Accepted(false))))
    {
      hide Good, Orderly, Nudged, Less, SlotOk, Ran, RuleStatus;
      ForgetGet(p);
      status := Execute(p, SetRule, env);
      RanSets(W(), SetRule, p, Taken(status), old(E()), E());
      if Taken(status) { pendingSet := pendingSet[p := status == InProgress]; }
    }

    /** `execute_set` */
    method ExecuteSet(p: Ptr, env: Frame) returns (status: Status)
      requires Sane() && InOrder() && slot.Valid() && !slot.executing && p in tree
      modifies slot`state, slot`pending, slot`needsMoreFrames, slot`timer, slot`due, slot`executing, slot`acceptedAt,
               slot`log, this`paced, this`vals, this`pendingGet, this`pendingSet, this`cooldown, this`floor,
               this`tally, this`rearm, this`stack, this`scanRequested, this`queue, this`walk
      ensures InOrder() && slot.Valid() && status ==
              old(SetStatus(A(), pendingGet, pendingSet, cooldown, clock, slot.state == Idle, p, env))
      ensures Ran(W(), SetRule, p, Taken(status), old(E()),
              E().(sets := if Taken(status) then old(pendingSet) else pendingSet))
      ensures Taken(status) ==> B() == TakenBooks(old(B()), SetRule, p, More(env)) && slot.needsMoreFrames == More(env)
      ensures slot.log != old(slot.log) <==>
              Taken(old(SetStatus(A(), pendingGet, pendingSet, cooldown, clock, slot.state == Idle, p,
                  Accepted(false))))
    {
      hide Good, Orderly, Nudged, Less, SlotOk, Ran, Queued, RuleStatus, TakenBooks;
      RanNot(W(), SetRule, p, E());
      if p in pendingSet || (p in cooldown && clock < cooldown[p]) {
        status := IsWaiting;
      } else {
        status := SetIfCooled(p, env);
      }
    }

    method SetIfCooled(p: Ptr, env: Frame) returns (status: Status)
      requires Sane() && InOrder() && slot.Valid() && !slot.executing && p in tree && p !in pendingSet &&
               (p in cooldown ==> cooldown[p] <= clock)
      modifies slot`state, slot`pending, slot`needsMoreFrames, slot`timer, slot`due, slot`executing, slot`acceptedAt,
               slot`log, this`paced, this`vals, this`pendingGet, this`pendingSet, this`cooldown, this`floor,
               this`tally, this`rearm, this`stack, this`scanRequested, this`queue, this`walk
      ensures InOrder() && slot.Valid() && status ==
              old(SetStatus(A(), pendingGet, pendingSet, cooldown, clock, slot.state == Idle, p, env))
      ensures Ran(W(), SetRule, p, Taken(status), old(E()),
              E().(sets := if Taken(status) then old(pendingSet) else pendingSet))
      ensures Taken(status) ==> B() == TakenBooks(old(B()), SetRule, p, More(env)) && slot.needsMoreFrames == More(env)
      ensures slot.log != old(slot.log) <==>
              Taken(old(SetStatus(A(), pendingGet, pendingSet, cooldown, clock, slot.state == Idle, p,
                  Accepted(false))))
    {
      hide Good, Orderly, Nudged, Less, SlotOk, Ran, Queued, RuleStatus;
      CooledDown(p);
      status := SetUnlessQueued(p, env);
    }

    method SetUnlessQueued(p: Ptr, env: Frame) returns (status: Status)
      requires Sane() && InOrder() && slot.Valid() && !slot.executing && p in tree
      requires p in floor ==> floor[p] <= clock
      modifies slot`state, slot`pending, slot`needsMoreFrames, slot`timer, slot`due, slot`executing, slot`acceptedAt,
               slot`log, this`paced, this`vals, this`pendingGet, this`pendingSet, this`cooldown, this`floor,
               this`tally, this`rearm, this`stack, this`scanRequested, this`queue, this`walk
      ensures InOrder() && slot.Valid()
      ensures status == old(if Queued(A(), pendingGet, pendingSet, p, SetRule) then IsWaiting
              else RuleStatus(A(), slot.state == Idle, p, SetRule, env))
      ensures Ran(W(), SetRule, p, Taken(status), old(E()),
              E().(sets := if Taken(status) then old(pendingSet) else pendingSet))
      ensures Taken(status) ==>
              B() == TakenBooks(old(B()), SetRule, p, More(env)).(cooldown := old(cooldown)) &&
              slot.needsMoreFrames == More(env)
      ensures slot.log != old(slot.log) <==>
              !old(Queued(A(), pendingGet, pendingSet, p, SetRule)) &&
              Taken(old(RuleStatus(A(), slot.state == Idle, p, SetRule, Accepted(false))))
    {
      hide Good, Orderly, Nudged, Less, SlotOk, Ran, Queued, RuleStatus;
      RanNot(W(), SetRule, p, E());
      var queued := AlreadyQueued(p, SetRule);
      if queued {
        status := IsWaiting;
      } else {
        status := SetNow(p, env);
      }
    }

    /** An expired cooldown is cleaned up. */
    method CooledDown(p: Ptr)
      requires InOrder() && (p in cooldown ==> cooldown[p] <= clock)
      modifies this`cooldown
      ensures InOrder() && cooldown == old(cooldown) - {p} && (p in floor ==> floor[p] <= clock)
    {
      hide Bounded, Pacing;
      PacingGate(clock, cooldown, floor, p);
      cooldown := cooldown - {p};
    }

    /** A node that is about to be set is to be read again from the start. */
    method ForgetGet(p: Ptr)
      requires InOrder()
      modifies this`pendingGet
      ensures InOrder() && pendingGet == old(pendingGet) - {p}
    {
      hide Bounded, Pacing;
      LessDrop(pendingGet, p);
      BoundedLess(pendingGet, pendingGet - {p}, tally);
      pendingGet := pendingGet - {p};
    }

    // -- The walk -------------------------------------------------------------------------

    /** A Get if one is due, otherwise a Set if one is due. */
    method Attempt(p: Ptr, env: Frame) returns (status: Status)
      requires Sane() && InOrder() && slot.Valid() && !slot.executing && slot.state == Idle && p in tree
      requires InFlight(pendingSet, slot.state, slot.pending, slot.due)
      modifies slot`state, slot`pending, slot`needsMoreFrames, slot`timer, slot`due, slot`executing, slot`acceptedAt,
               slot`log, this`paced, this`vals, this`pendingGet, this`pendingSet, this`cooldown, this`floor,
               this`tally, this`rearm, this`stack, this`scanRequested, this`queue, this`walk
      ensures InOrder() && slot.Valid() && Tried(W(), p, Taken(status), old(E()), E())
      ensures status == old(AttemptStatus(p, env))
      ensures Taken(status) ==>
              slot.pending == p &&
              slot.state == Executing(if old(NeedsGet(A(), p)) then GetRule else SetRule)
      ensures Taken(status) ==> B() == TakenBooks(old(B()), if old(NeedsGet(A(), p)) then GetRule
              else SetRule, p, More(env)) && slot.needsMoreFrames == More(env)
      ensures slot.log != old(slot.log) <==> old(WouldClaim(p))
    {
      hide Good, Orderly, Nudged, Less, SlotOk, Ran, Tried, InFlight, NeedsGet, NeedsSet, Exhausted, GetStatus,
           SetStatus;
      ghost var a := E();
      TriedNot(W(), p, a);
      if NeedsGet(A(), p) {
        status := ExecuteGet(p, env);
        TriedGet(W(), p, Taken(status), a, E());
        RanTaken(W(), GetRule, p, Taken(status), a, E());
      } else if NeedsSet(A(), p) {
        status := ExecuteSet(p, env);
        TriedSet(W(), p, Taken(status), More(env), a, E());
        RanTaken(W(), SetRule, p, Taken(status), a, E().(sets := if Taken(status) then old(pendingSet)
            else pendingSet));
      } else {
        status := NotInitialized;
      }
    }

    /** What the loop does with a node whose children are all visited; the result says whether the
        loop returns, to wait for a completion or for its next event. */
    method Consider(p: Ptr, env: Frame) returns (done: bool)
      requires Sane() && InOrder() && slot.Valid() && !slot.executing && slot.state == Idle && p in tree
      requires InFlight(pendingSet, slot.state, slot.pending, slot.due)
      modifies slot`state, slot`pending, slot`needsMoreFrames, slot`timer, slot`due, slot`executing, slot`acceptedAt,
               slot`log, this`paced, this`vals, this`pendingGet, this`pendingSet, this`cooldown, this`floor,
               this`tally, this`rearm, this`stack, this`scanRequested, this`queue, this`walk
      ensures InOrder() && slot.Valid() && Tried(W(), p, slot.state != Idle, old(E()), E())
      ensures done ==> stack == [] || Next in queue || slot.state != Idle
      ensures !done ==> slot.state == Idle
      ensures Considered(p, Taken(old(AttemptStatus(p, env))), if old(NeedsGet(A(), p)) then GetRule
              else SetRule, More(env), old(B()), E(), B())
      ensures slot.log != old(slot.log) <==> old(WouldClaim(p))
    {
      hide Good, Orderly, SlotOk, Tried, InFlight, NeedsGet, NeedsSet, Exhausted, AttemptStatusOf, TakenBooks,
           Resolver.WouldClaim;
      ghost var a := E();
      var status := Attempt(p, env);
      done := Conclude(p, status, a);
    }

    /** After the attempt: wait for the completion of a taken frame; complete a node that needs no frame;
        otherwise go on with the next node. */
    method Conclude(p: Ptr, status: Status, ghost a: Exec) returns (done: bool)
      requires Sane() && InOrder() && slot.Valid() && Tried(W(), p, Taken(status), a, E())
      modifies this`vals, this`pendingGet, this`pendingSet, this`cooldown, this`floor, this`tally, this`rearm,
               this`stack, this`scanRequested, this`queue, this`walk
      ensures InOrder() && slot.Valid() && Tried(W(), p, slot.state != Idle, a, E()) &&
              (slot.state != Idle <==> Taken(status))
      ensures Taken(status) ==> B() == old(B())
      ensures done ==> stack == [] || Next in queue || slot.state != Idle
      ensures !done ==> slot.state == Idle
    {
      hide Good, Orderly, Nudged, Less, SlotOk, Tried, Completed;
      TriedState(W(), p, Taken(status), a, E());
      done := Taken(status) || status == NotInitialized || status == AlreadyExists;
      if status == NotInitialized || status == AlreadyExists {
        ghost var b := E();
        CompleteNoFrame(p);
        TriedOn(W(), p, a, b, E());
      }
    }

    /** A completion of a node that needed no frame. */
    method CompleteNoFrame(p: Ptr)
      requires Sane() && InOrder()
      modifies this`vals, this`pendingGet, this`pendingSet, this`cooldown, this`floor, this`tally, this`rearm,
               this`stack, this`scanRequested, this`queue, this`walk
      ensures InOrder() && Nudged(W(), true, old(S()), S()) && (stack != [] ==> Next in queue)
      ensures Completed(old(A()), old(B()), A(), B(), p, clock, retryTimeout)
      ensures Less(old(pendingSet), pendingSet) && p !in pendingSet
      ensures old(Quiet(p)) ==> S() == Announced(old(S()), p, p in listeners && AllSettled(W(), A(), pendingGet, p))
    {
      hide Good, Pacing, Bounded, Nudged, Less, AllSettled, TellsOf, Completed, Resolver.Quiet;
      ghost var a, b := A(), B();
      OnComplete(p);
      CompletedSets(a, b, A(), B(), p, clock, retryTimeout);
    }

    /** The start of `attribute_resolver_ev_next`: a requested scan begins at the root when no scan is
        under way. With a rule under way the event ends here. */
    method BeginNext()
      requires Valid() && !walking && queue != [] && queue[0] == Next
      modifies this`walking, this`stack, this`scanRequested, this`queue, this`walk
      ensures Valid() && old(walk.asked) <= walk.asked && walking == (slot.state == Idle) &&
              (walking || stack != [] ==> queue == old(queue)[1..])
      ensures old(stack) == [] && old(scanRequested) ==>
                stack == [Entry(root, 0)] && !scanRequested && walk.calm && walk.scanned == [] &&
                    walk.plan == PlanOf(W())
      ensures walking && old(stack) != [] ==> S() == old(S()).(queue := old(queue)[1..])
    {
      hide Whole, Ready, Orderly, SlotOk, Remaining, Good, Scanning;
      WholeParts(W(), E(), walking);
      StartScan();
      if slot.state != Idle {
        EndNext();
      } else {
        walking := true;
        ReadyWalks(W(), E());
      }
    }

    method StartScan()
      requires Ready(W(), E()) && queue != []
      modifies this`stack, this`scanRequested, this`queue, this`walk
      ensures Ready(W(), E()) && queue == old(queue)[1..] && walk.asked == old(walk.asked)
      ensures if old(stack) == [] && old(scanRequested)
              then stack == [Entry(root, 0)] && !scanRequested && walk.calm && walk.scanned == [] &&
                  walk.plan == PlanOf(W())
              else S() == old(S()).(queue := old(queue)[1..])
    {
      hide Ready, PlanOf;
      ReadyPop(W(), E());
      queue := queue[1..];
      if stack == [] && scanRequested {
        ReadyTop(W(), E());
        SetScan(Begun(W(), S()));
      }
    }

    method SetScan(ghost s: Sched)
      requires s.stack == [Entry(root, 0)] && !s.scanRequested && s.queue == queue
      modifies this`stack, this`scanRequested, this`walk
      ensures S() == s
    {
      stack, scanRequested, walk := [Entry(root, 0)], false, s.walk;
    }

    /** The end of `attribute_resolver_ev_next`: a scan that was requested meanwhile has its event. */
    method EndNext()
      requires Ready(W(), E()) && (stack == [] || Next in queue || slot.state != Idle)
      modifies this`queue, this`walking
      ensures !walking && Whole(W(), E(), walking)
      ensures queue == if stack == [] && scanRequested then old(queue) + [Next] else old(queue)
    {
      hide Ready, Whole;
      ReadyEnds(W(), E());
      walking := false;
      if stack == [] && scanRequested { queue := queue + [Next]; }
    }

    /** The walk moves on: the next node to consider, if this pass reaches one. */
    method Advance() returns (hit: Option<Ptr>)
      requires Ready(W(), E()) && stack != []
      modifies this`stack, this`walk
      ensures Ready(W(), E())
      ensures hit.Some? ==> hit.value in tree
      ensures hit == WalkStep(W(), old(stack)).1 && S() == Passed(W(), old(S()), WalkStep(W(), old(stack)).0, hit)
    {
      hide Scanning, Remaining, Work, Skipped, Good, InFlight;
      ScanningGood(W(), S());
      ghost var s := S();
      var next;
      next, hit := Pass(tree, paused, stack, W());
      ScanningPass(W(), s, next, hit);
      stack, walk := next, Passed(W(), s, next, hit).walk;
    }

    /** The node that the next pass considers. */
    ghost function Hit(): Option<Ptr>
      reads this
    {
      if stack == [] then None else WalkStep(W(), stack).1
    }

    /** The next pass claims the slot. */
    ghost predicate Claims()
      reads this, slot
    {
      Hit().Some? && WouldClaim(Hit().value)
    }

    /** One pass of the loop of `resolver_find_next_resolve`: the walk moves on, and the node that it reaches
        is considered. A pass keeps every completion call before the next claim if and only if it claims
        nothing, or no call is owed. */
    method NextPass(env: Frame)
      requires Valid() && walking
      modifies slot`state, slot`pending, slot`needsMoreFrames, slot`timer, slot`due, slot`executing, slot`acceptedAt,
               slot`log, this`paced, this`walking, this`vals, this`pendingGet, this`pendingSet, this`cooldown,
               this`floor, this`tally, this`rearm, this`stack, this`scanRequested, this`queue, this`walk
      ensures Valid() && slot.due == old(slot.due)
      ensures CallsFirst(slot.log) <==>
              old(CallsFirst(slot.log)) && (old(Claims()) ==> forall p :: p in slot.due ==> p == NOBODY)
      ensures old(stack) == [] ==> !walking && E() == old(E()).(sched := S()) && B() == old(B()) && walk == old(walk)
      ensures old(stack) != [] && old(Hit()).None? ==>
              walking && E() == old(E()).(sched := Passed(W(), old(S()), WalkStep(W(), old(stack)).0, None)) &&
              B() == old(B())
      ensures old(Hit()).Some? ==>
                var p := old(Hit()).value;
                Considered(p, Taken(old(AttemptStatus(p, env))), if old(NeedsGet(A(), p)) then GetRule
                    else SetRule, More(env), old(B()), E(), B()) &&
                Followed(p, Passed(W(), old(S()), WalkStep(W(), old(stack)).0, Some(p)), old(slot.log), E(), walking)
    {
      hide Whole, Ready, Orderly, SlotOk, WalkStep, Passed, Considered, Followed, CallsFirst, AttemptStatusOf,
           NeedsGet, Resolver.WouldClaim;
      if stack == [] {
        WholeParts(W(), E(), walking);
        EndNext();
      } else {
        WalkOnce(env);
      }
    }

    method WalkOnce(env: Frame)
      requires Valid() && walking && stack != []
      modifies slot`state, slot`pending, slot`needsMoreFrames, slot`timer, slot`due, slot`executing, slot`acceptedAt,
               slot`log, this`paced, this`walking, this`vals, this`pendingGet, this`pendingSet, this`cooldown,
               this`floor, this`tally, this`rearm, this`stack, this`scanRequested, this`queue, this`walk
      ensures Valid() && slot.due == old(slot.due)
      ensures CallsFirst(slot.log) <==>
              old(CallsFirst(slot.log)) && (old(Claims()) ==> forall p :: p in slot.due ==> p == NOBODY)
      ensures old(Hit()).None? ==>
              walking && E() ==
              old(E()).(sched := Passed(W(), old(S()), WalkStep(W(), old(stack)).0, None)) && B() == old(B())
      ensures old(Hit()).Some? ==>
                var p := old(Hit()).value;
                Considered(p, Taken(old(AttemptStatus(p, env))), if old(NeedsGet(A(), p)) then GetRule
                    else SetRule, More(env), old(B()), E(), B()) &&
                Followed(p, Passed(W(), old(S()), WalkStep(W(), old(stack)).0, Some(p)), old(slot.log), E(), walking)
    {
      hide Whole, Ready, Orderly, SlotOk, NeedsGet, AttemptStatusOf, Passed, WalkStep, Considered, Followed,
           CallsFirst, Executed;
      WholeParts(W(), E(), walking);
      var hit := Advance();
      ReadyWalks(W(), E());
      if hit.Some? { ConsiderInOrder(hit.value, env); }
    }

    method ConsiderInOrder(p: Ptr, env: Frame)
      requires Valid() && walking && p in tree
      modifies slot`state, slot`pending, slot`needsMoreFrames, slot`timer, slot`due, slot`executing, slot`acceptedAt,
               slot`log, this`paced, this`walking, this`vals, this`pendingGet, this`pendingSet, this`cooldown,
               this`floor, this`tally, this`rearm, this`stack, this`scanRequested, this`queue, this`walk
      ensures Valid() && slot.due == old(slot.due)
      ensures CallsFirst(slot.log) <==>
              old(CallsFirst(slot.log)) && (old(WouldClaim(p)) ==> forall p :: p in slot.due ==> p == NOBODY)
      ensures Considered(p, Taken(old(AttemptStatus(p, env))), if old(NeedsGet(A(), p)) then GetRule
              else SetRule, More(env), old(B()), E(), B())
      ensures Followed(p, old(S()), old(slot.log), E(), walking)
    {
      hide Whole, Orderly, SlotOk, NeedsGet, AttemptStatusOf, Considered, Followed, CallsFirst, Executed,
           Resolver.WouldClaim;
      SlotOwed(slot);
      ConsiderHit(p, env);
      ExecutedKeepsIff(p, old(slot.log), slot.log);
    }

    method ConsiderHit(p: Ptr, env: Frame)
      requires Valid() && walking && p in tree
      modifies slot`state, slot`pending, slot`needsMoreFrames, slot`timer, slot`due, slot`executing, slot`acceptedAt,
               slot`log, this`paced, this`walking, this`vals, this`pendingGet, this`pendingSet, this`cooldown,
               this`floor, this`tally, this`rearm, this`stack, this`scanRequested, this`queue, this`walk
      ensures Valid() && slot.due == old(slot.due) && Executed(p, old(slot.log), slot.log)
      ensures Considered(p, Taken(old(AttemptStatus(p, env))), if old(NeedsGet(A(), p)) then GetRule
              else SetRule, More(env), old(B()), E(), B())
      ensures Followed(p, old(S()), old(slot.log), E(), walking)
      ensures slot.log != old(slot.log) <==> old(WouldClaim(p))
    {
      hide Whole, Ready, Orderly, SlotOk, Scanning, InFlight, Tried, Awake, Good, NeedsGet, AttemptStatusOf,
           TakenBooks, Executed, Resolver.WouldClaim;
      WholeParts(W(), E(), walking);
      ghost var a := E();
      var done := Consider(p, env);
      ReadyTried(W(), p, slot.state != Idle, a, E());
      GoOn(done);
    }

    /** The event ends, or the walk goes on with the next pass. */
    method GoOn(done: bool)
      requires Ready(W(), E()) && walking && if done then stack == [] || Next in queue || slot.state != Idle
               else slot.state == Idle
      modifies this`queue, this`walking
      ensures walking == !done && Whole(W(), E(), walking)
      ensures queue == if done && stack == [] && scanRequested then old(queue) + [Next] else old(queue)
    {
      hide Whole, Ready;
      if done { EndNext(); } else { ReadyWalks(W(), E()); }
    }

    // -- Steps of the environment ---------------------------------------------------------

    /** An attribute value changes under the lock of the store alone, even during a walk; the callback
        comes later. */
    method ChangeValue(p: Ptr, state: ValueState, value: seq<Byte>)
      requires Valid()
      modifies this`vals
      ensures Valid() && vals == if p in tree then Written(old(vals), p, state, value) else old(vals)
    {
      hide Whole, Orderly, SlotOk, Written;
      if p in tree { vals := Written(vals, p, state, value); }
    }

    /** Some component writes an attribute value, and the callback follows at once. */
    method StoreWrite(p: Ptr, state: ValueState, value: seq<Byte>)
      requires Valid() && !walking
      modifies this`vals, this`pendingGet, this`pendingSet, this`cooldown, this`floor, this`stack,
               this`scanRequested, this`queue, this`walk
      ensures Valid() && old(walk.asked) <= walk.asked && vals == if p in tree
              then Written(old(vals), p, state, value) else old(vals)
      ensures p in tree && vals != old(vals) && CalledBack(book, tree[p].typ, state) ==> Heeded(p)
      ensures Tidied(W(), old(D()), D()) && Noticed(old(A()), A(), old(D()), D())
    {
      hide Resolver.Heeded, Whole, Orderly, SlotOk, Pacing, Tidied, NeedsSet, Written, Good, Noticed;
      Basics(W(), E(), walking, clock, cooldown, floor, pendingGet, tally, retries);
      ghost var a, gets, cool, low := E(), pendingGet, cooldown, floor;
      Write(p, state, value);
      WholeTidied(W(), a, E(), gets, pendingGet, clock, cool, low, cooldown, floor, tally, retries);
    }

    /** The status of a sent frame arrives: the values change. */
    method StatusArrives(status: SendStatus, p: Ptr, rule: RuleType)
      requires Valid() && !walking
      modifies this`vals, this`pendingGet, this`pendingSet, this`cooldown, this`floor, this`stack,
               this`scanRequested, this`queue, this`walk
      ensures Valid() && old(walk.asked) <= walk.asked
      ensures rule == GetRule || Silent(status) ==> B() == old(B()) && S() == old(S())
      ensures rule == SetRule ==> OutcomeOf(status, p == slot.pending && p != 0 && slot.needsMoreFrames,
              Group(book, tree, SetRule, p), {p} * tree.Keys, old(vals), vals)
      ensures Noticed(old(A()), A(), old(D()), D())
    {
      hide Whole, Orderly, SlotOk, Pacing, Tidied, Group, OutcomeOf, Good, Noticed;
      Basics(W(), E(), walking, clock, cooldown, floor, pendingGet, tally, retries);
      ghost var a, gets, cool, low := E(), pendingGet, cooldown, floor;
      ApplyStatus(status, p, rule);
      WholeTidied(W(), a, E(), gets, pendingGet, clock, cool, low, cooldown, floor, tally, retries);
    }

    /** `on_resolver_send_data_complete` on a thread of the sender: the values change, the slot is freed
        if the node holds it, and the completion call is owed. For a Get rule it takes the rule lock alone
        and can happen during a walk. */
    method SendDataComplete(status: SendStatus, p: Ptr, rule: RuleType)
      requires Valid() && (walking ==> rule == GetRule)
      modifies slot`state, slot`pending, slot`timer, slot`due, slot`log, this`vals, this`pendingGet, this`pendingSet,
               this`cooldown, this`floor, this`stack, this`scanRequested, this`queue, this`walk
      ensures Valid() && old(walk.asked) <= walk.asked && (slot.pending == NOBODY || slot.pending != p) &&
              NoClaim(old(slot.log), slot.log)
      ensures walking ==> forall q :: q in slot.due && q !in old(slot.due) ==> q == NOBODY
      ensures rule == GetRule || Silent(status) ==> B() == old(B()) && S() == old(S())
      ensures rule == SetRule ==> Arrived(status, p == old(slot.pending) && p != 0 && slot.needsMoreFrames, p,
              old(A()), A(), old(D()), D())
      ensures slot.due == if old(slot.pending) == p then old(slot.due) + multiset{p} else old(slot.due)
      ensures old(slot.pending) == p ==> slot.state == Idle
    {
      hide Whole, Orderly, SlotOk, Group, OutcomeOf, Noticed;
      if rule == SetRule { StatusArrives(status, p, rule); }
      FreeSlot(p);
    }

    /** The end of a status report, under the rule lock alone: the slot is freed if the node holds it, and
        the completion call is owed. */
    method FreeSlot(p: Ptr)
      requires Valid()
      modifies slot`state, slot`pending, slot`timer, slot`due, slot`log
      ensures Valid() && (slot.pending == NOBODY || slot.pending != p) && NoClaim(old(slot.log), slot.log)
      ensures walking ==> forall q :: q in slot.due && q !in old(slot.due) ==> q == NOBODY
      ensures slot.due == if old(slot.pending) == p then old(slot.due) + multiset{p} else old(slot.due)
      ensures old(slot.pending) == p ==> slot.state == Idle
    {
      hide Whole, Orderly, Accounted, Watched, Ready, Awake, NoClaim;
      WholeParts(W(), E(), walking);
      ghost var a := E();
      var released := slot.Release(p);
      if released { WholeReleased(W(), a, E(), walking); }
    }

    /** A completion call that was owed is made. */
    method CompletionCall(p: Ptr)
      requires Valid() && !walking && p in slot.due
      modifies slot`due, slot`log, this`vals, this`pendingGet, this`pendingSet, this`cooldown, this`floor,
               this`tally, this`rearm, this`stack, this`scanRequested, this`queue, this`walk
      ensures Valid() && old(walk.asked) <= walk.asked && slot.due == old(slot.due) - multiset{p} &&
              NoClaim(old(slot.log), slot.log)
      ensures Completed(old(A()), old(B()), A(), B(), p, clock, retryTimeout)
      ensures Nudged(W(), true, old(S()), S())
      ensures old(Quiet(p)) ==> S() == Announced(old(S()), p, p in listeners && AllSettled(W(), A(), pendingGet, p))
    {
      hide Whole, Orderly, SlotOk, Nudged, Less, Good, Scanning, Ready, InFlight, Awake, Completed, NoClaim,
           Resolver.Quiet;
      WholeParts(W(), E(), walking);
      ghost var a := E();
      slot.Call(p);
      CompleteNoFrame(p);
      WholeCalled(W(), a, E(), p);
    }

    /** `on_rule_execution_timeout`, from the point where it has read the slot. */
    method HandleTimeout()
      requires Valid() && slot.timeouts != [] && (walking ==> slot.timeouts[0].1 == GetRule)
      modifies slot`timeouts, slot`state, slot`pending, slot`timer, slot`due, slot`log, this`vals, this`pendingGet,
               this`pendingSet, this`cooldown, this`floor, this`stack, this`scanRequested, this`queue, this`walk
      ensures Valid() && old(walk.asked) <= walk.asked && slot.timeouts == old(slot.timeouts)[1..] &&
              NoClaim(old(slot.log), slot.log)
      ensures walking ==> forall q :: q in slot.due && q !in old(slot.due) ==> q == NOBODY
      ensures var t := old(slot.timeouts)[0];
              slot.due == (if old(slot.pending) == t.0 then old(slot.due) + multiset{t.0} else old(slot.due)) &&
              (t.1 == SetRule ==> Arrived(SendFail, t.0 == old(slot.pending) && t.0 != 0 && slot.needsMoreFrames,
                  t.0, old(A()), A(), old(D()), D()))
    {
      hide Whole, Orderly, SlotOk, Arrived;
      var t := slot.timeouts[0];
      SendDataComplete(SendFail, t.0, t.1);
      slot.DropTimedOut();
    }

    /** The status of a Set arrives, and the completion call is made. If the node then has a Set to do, it is
        paced if and only if that could be seen before the status. */
    method StatusThenCall(status: SendStatus, p: Ptr)
      requires Valid() && !walking && slot.pending == p && p != 0
      modifies slot`state, slot`pending, slot`timer, slot`due, slot`log, this`vals, this`pendingGet, this`pendingSet,
               this`cooldown, this`floor, this`tally, this`rearm, this`stack, this`scanRequested, this`queue, this`walk
      ensures Valid() && slot.due == old(slot.due)
      ensures NeedsSet(A(), p) ==>
                if old(WillPace(A(), pendingGet, pendingSet, status, slot.needsMoreFrames, p))
                then PacedUntil(floor, p, clock + SET_RETRY_BACKOFF) else NotPaced(old(floor), floor, p)
    {
      hide Whole, Orderly, SlotOk, Arrived, NeedsSet, WillPace, NoClaim;
      ghost var a, d := A(), D();
      SendDataComplete(status, p, SetRule);
      CallAfterStatus(status, p, slot.needsMoreFrames, a, d);
    }

    method CallAfterStatus(ghost status: SendStatus, p: Ptr, ghost more: bool, ghost a: Attrs, ghost d: Desk)
      requires Valid() && !walking && p in slot.due && Arrived(status, more, p, a, A(), d, D())
      modifies slot`due, slot`log, this`vals, this`pendingGet, this`pendingSet, this`cooldown, this`floor,
               this`tally, this`rearm, this`stack, this`scanRequested, this`queue, this`walk
      ensures Valid() && slot.due == old(slot.due) - multiset{p}
      ensures NeedsSet(A(), p) ==>
                if WillPace(a, d.gets, d.sets, status, more, p) then PacedUntil(floor, p, clock + SET_RETRY_BACKOFF)
                    else NotPaced(d.floor, floor, p)
    {
      hide Whole, Orderly, SlotOk, Noticed, OutcomeOf, Group, Completed, NeedsSet, WillPace, NoClaim;
      ghost var b, e, x := A(), D(), B();
      CompletionCall(p);
      if NeedsSet(A(), p) { PacedIff(status, more, a, b, A(), d, e, x, B(), p, clock, retryTimeout); }
    }

    /** The same for a Set that times out. */
    method TimeoutThenCall()
      requires Valid() && !walking && slot.timeouts != [] && slot.timeouts[0] == (slot.pending, SetRule) &&
               slot.pending != 0
      modifies slot`timeouts, slot`state, slot`pending, slot`timer, slot`due, slot`log, this`vals, this`pendingGet,
               this`pendingSet, this`cooldown, this`floor, this`tally, this`rearm, this`stack, this`scanRequested,
               this`queue, this`walk
      ensures Valid() && slot.due == old(slot.due)
      ensures var p := old(slot.pending);
              NeedsSet(A(), p) ==>
                if old(WillPace(A(), pendingGet, pendingSet, SendFail, slot.needsMoreFrames, slot.pending))
                then PacedUntil(floor, p, clock + SET_RETRY_BACKOFF) else NotPaced(old(floor), floor, p)
    {
      hide Whole, Orderly, SlotOk, Arrived, NeedsSet, WillPace, NoClaim;
      ghost var a, d := A(), D();
      var p := slot.pending;
      HandleTimeout();
      CallAfterStatus(SendFail, p, slot.needsMoreFrames, a, d);
    }

    /** `scan_node` as a step: the node is also asked of the scan that is under way. */
    method RequestScan(p: Ptr)
      requires Valid() && !walking
      modifies this`stack, this`scanRequested, this`queue, this`walk
      ensures Valid() && old(walk.asked) <= walk.asked && (p != 0 ==> scanRequested)
      ensures p in tree && stack != [] ==> Subtree(W(), p) <= walk.asked
      ensures Nudged(W(), false, old(S()), S())
    {
      hide Whole, Orderly, SlotOk, Nudged, Good, AheadOf, NearestReset, Subtree, Requested;
      WholeGood(W(), E(), walking);
      ghost var a := E();
      ScanNode(p);
      NudgedRoot(W(), a, S(), walking);
      LessDrop(pendingSet, p);
      WholeNudged(W(), false, a, E(), walking);
    }

    /** `attribute_resolver_pause_node_resolution` */
    method Pause(p: Ptr)
      requires Valid() && !walking
      modifies this`paused, this`walk
      ensures Valid() && old(walk.asked) <= walk.asked && paused == old(paused) + {p}
    {
      hide Whole, Orderly, SlotOk;
      WholePause(W(), paused + {p}, E(), walking);
      paused, walk := paused + {p}, Disturb(S()).walk;
    }

    /** `attribute_resolver_resume_node_resolution`: a node with a resolution pending is attended to afterwards if
        and only if it was before. */
    method Resume(p: Ptr)
      requires Valid() && !walking
      modifies this`paused, this`stack, this`scanRequested, this`queue, this`walk
      ensures Valid() && old(walk.asked) <= walk.asked && paused == old(paused) - {p}
      ensures p != 0 && p !in pendingGet && p !in pendingSet ==> scanRequested
      ensures p in pendingGet || p in pendingSet ==> S() == Disturb(old(S()))
      ensures p != 0 ==> (Attended(p) <==> old(Attended(p)) || (p !in pendingGet && p !in pendingSet))
    {
      hide Whole, Orderly, SlotOk, AheadOf;
      PauseKeepsAhead(W(), paused - {p}, stack, p);
      Unpause(p);
      if p !in pendingGet && p !in pendingSet { RequestScan(p); }
    }

    method Unpause(p: Ptr)
      requires Valid() && !walking
      modifies this`paused, this`walk
      ensures Valid() && old(walk.asked) <= walk.asked && paused == old(paused) - {p}
      ensures S() == Disturb(old(S()))
    {
      hide Whole, Orderly, SlotOk;
      WholePause(W(), paused - {p}, E(), walking);
      paused, walk := paused - {p}, Disturb(S()).walk;
    }

    /** `attribute_resolver_set_resolution_listener` */
    method SetListener(p: Ptr)
      requires Valid() && !walking
      modifies this`listeners, this`stack, this`scanRequested, this`queue, this`walk
      ensures Valid() && old(walk.asked) <= walk.asked &&
              (p != 0 ==> listeners == old(listeners) + {p} && scanRequested)
      ensures p != 0 ==> Nudged(W(), false, old(S()), S())
      ensures p in tree && p != 0 && stack != [] ==> Subtree(W(), p) <= walk.asked
    {
      hide Whole, Orderly, SlotOk, Nudged, Subtree;
      if p != 0 {
        listeners := listeners + {p};
        RequestScan(p);
      }
    }

    /** `attribute_resolver_clear_resolution_listener`, for the last callback of the node. */
    method ClearListener(p: Ptr)
      requires Valid() && !walking
      modifies this`listeners
      ensures Valid() && listeners == old(listeners) - {p}
    {
      hide Whole, Orderly, SlotOk;
      listeners := listeners - {p};
    }

    /** `attribute_resolver_restart_get_resolution` */
    method RestartGet(p: Ptr) returns (found: bool)
      requires Valid() && !walking
      modifies this`pendingGet, this`stack, this`scanRequested, this`queue, this`walk
      ensures Valid() && old(walk.asked) <= walk.asked && found == (p in old(pendingGet)) &&
              pendingGet == old(pendingGet) - {p}
      ensures found && p != 0 ==> scanRequested
    {
      hide Whole, Orderly, SlotOk;
      found := p in pendingGet;
      if found {
        DropGet(p);
        RequestScan(p);
      }
    }

    /** `attribute_resolver_restart_set_resolution`; what the lower layers abort arrives later. */
    method RestartSet(p: Ptr) returns (found: bool)
      requires Valid() && !walking
      modifies this`pendingSet, this`cooldown, this`floor, this`paused, this`stack, this`scanRequested, this`queue,
               this`walk
      ensures Valid() && old(walk.asked) <= walk.asked && found == (p in old(pendingSet)) &&
              pendingSet == old(pendingSet) - {p}
      ensures found ==> p !in cooldown && paused == old(paused) - {p} && (p != 0 ==> scanRequested)
    {
      hide Whole, Orderly, SlotOk;
      found := p in pendingSet;
      if found {
        DropSet(p);
        Resume(p);
        RequestScan(p);
      }
    }

    method DropSet(p: Ptr)
      requires Valid()
      modifies this`pendingSet, this`cooldown, this`floor
      ensures Valid() && pendingSet == old(pendingSet) - {p} && cooldown == old(cooldown) - {p} &&
              floor == old(floor) - {p}
    {
      hide Whole, Orderly, SlotOk, Less, Nudged;
      LessDrop(pendingSet, p);
      NudgedNot(W(), S());
      ghost var a := E();
      OrderlyDrop(clock, cooldown, floor, pendingGet, tally, retries, p);
      pendingSet, cooldown, floor := pendingSet - {p}, cooldown - {p}, floor - {p};
      WholeNudged(W(), false, a, E(), walking);
    }

    /** `attribute_resolver_request_rearm_after_completion` */
    method RequestRearm(p: Ptr, count: Byte)
      requires Valid() && !walking
      modifies this`rearm
      ensures Valid() && rearm == old(rearm)[p := count]
    {
      hide Whole, Orderly, SlotOk;
      rearm := rearm[p := count];
    }

    /** `attribute_resolver_start_group_resolution`: a Set that is in flight is not disturbed, and its
        node is re-armed instead. */
    method StartGroupResolution(p: Ptr, count: Byte)
      requires Valid() && !walking
      modifies this`rearm, this`vals, this`pendingGet, this`pendingSet, this`cooldown, this`floor, this`stack,
               this`scanRequested, this`queue, this`walk
      ensures Valid() && old(walk.asked) <= walk.asked
      ensures p in old(pendingSet) ==> rearm == old(rearm)[p := count] && vals == old(vals)
      ensures p !in old(pendingSet) ==> rearm == old(rearm)
      ensures p !in old(pendingSet) && p in tree ==>
              vals == Written(Written(old(vals), p, Reported, []), p, Desired, [count])
    {
      hide Whole, Orderly, SlotOk, Written, Tidied, Noticed, Resolver.Heeded;
      if p in pendingSet {
        RequestRearm(p, count);
      } else {
        ResetGroupNode(p, count);
      }
    }

    method ResetGroupNode(p: Ptr, count: Byte)
      requires Valid() && !walking
      modifies this`vals, this`pendingGet, this`pendingSet, this`cooldown, this`floor, this`stack,
               this`scanRequested, this`queue, this`walk
      ensures Valid() && old(walk.asked) <= walk.asked
      ensures p in tree ==> vals == Written(Written(old(vals), p, Reported, []), p, Desired, [count])
    {
      hide Whole, Orderly, SlotOk, Written, Tidied, Noticed, Resolver.Heeded;
      StoreWrite(p, Reported, []);
      StoreWrite(p, Desired, [count]);
    }

    /** Time passes. */
    method Tick(d: nat)
      requires Valid()
      modifies this`clock
      ensures Valid() && clock == old(clock) + d
    {
      hide Whole, Orderly, SlotOk;
      OrderlyLater(clock, clock + d, cooldown, floor, pendingGet, tally, retries);
      clock := clock + d;
    }

    /** The resolver thread handles another event than NEXT: it tells a listener, or sets the timer. */
    method OtherEvent()
      requires Valid() && !walking && queue != [] && queue[0] != Next
      modifies this`queue, this`resumeTimer
      ensures Valid() && queue == old(queue)[1..]
      ensures old(queue)[0].TimerSet? ==> resumeTimer == Some(clock + old(queue)[0].delay)
    {
      hide Whole, Orderly, SlotOk;
      WholePop(W(), E());
      if queue[0].TimerSet? { resumeTimer := Some(clock + queue[0].delay); }
      queue := queue[1..];
    }

    /** Other events are handled up to the next NEXT. */
    method SkipToNext()
      requires Valid() && !walking && Next in queue
      modifies this`queue, this`resumeTimer
      ensures Valid() && queue != [] && queue[0] == Next
    {
      hide Whole, Orderly, SlotOk;
      while queue[0] != Next
        invariant Valid() && Next in queue
        decreases |queue|
      {
        assert queue == [queue[0]] + queue[1..];
        OtherEvent();
      }
    }

    // -- The tree changes -----------------------------------------------------------------

    /** What is forgotten about a deleted node. */
    method ForgetNode(p: Ptr)
      requires Valid() && !walking
      modifies this`listeners, this`paused, this`pendingGet, this`pendingSet, this`cooldown, this`floor, this`rearm,
               this`walk
      ensures Valid() && old(walk.asked) <= walk.asked
      ensures listeners == old(listeners) - {p} && paused == old(paused) - {p} && rearm == old(rearm) - {p}
      ensures pendingGet == old(pendingGet) - {p} && pendingSet == old(pendingSet) - {p} &&
              cooldown == old(cooldown) - {p} && floor == old(floor) - {p}
      ensures Forgotten(p, listeners, paused, pendingGet, pendingSet, rearm)
    {
      hide Whole, Orderly, SlotOk;
      ForgetHooks(p);
      DropGet(p);
      DropSet(p);
    }

    method ForgetHooks(p: Ptr)
      requires Valid() && !walking
      modifies this`listeners, this`paused, this`rearm, this`walk
      ensures Valid() && old(walk.asked) <= walk.asked && listeners == old(listeners) - {p} &&
              paused == old(paused) - {p} && rearm == old(rearm) - {p}
    {
      hide Whole, Orderly, SlotOk;
      ClearListener(p);
      Unpause(p);
      rearm := rearm - {p};
    }

    method DropGet(p: Ptr)
      requires Valid()
      modifies this`pendingGet
      ensures Valid() && pendingGet == old(pendingGet) - {p}
    {
      hide Whole, Orderly, SlotOk;
      OrderlyDrop(clock, cooldown, floor, pendingGet, tally, retries, p);
      pendingGet := pendingGet - {p};
    }

    /** `attribute_resolver_rule_abort` */
    method AbortRule(p: Ptr)
      requires Valid() && !walking && p != 0 && Forgotten(p, listeners, paused, pendingGet, pendingSet, rearm)
      modifies slot`state, slot`pending, slot`timer, slot`due, slot`log, this`vals, this`pendingGet, this`pendingSet,
               this`cooldown, this`floor, this`tally, this`rearm, this`stack, this`scanRequested, this`queue, this`walk
      ensures Valid() && old(walk.asked) <= walk.asked && slot.pending != p && slot.due == old(slot.due) &&
              NoClaim(old(slot.log), slot.log) && Forgotten(p, listeners, paused, pendingGet, pendingSet, rearm)
    {
      hide Whole, Orderly, SlotOk, NoClaim, Completed;
      NoClaimAfter(slot.log, p);
      if slot.pending == p {
        ghost var a, b := A(), B();
        AbortHolder(p);
        CompletedSets(a, b, A(), B(), p, clock, retryTimeout);
      }
    }

    method AbortHolder(p: Ptr)
      requires Valid() && !walking && p != 0 && slot.pending == p
      modifies slot`state, slot`pending, slot`timer, slot`due, slot`log, this`vals, this`pendingGet, this`pendingSet,
               this`cooldown, this`floor, this`tally, this`rearm, this`stack, this`scanRequested, this`queue, this`walk
      ensures Valid() && old(walk.asked) <= walk.asked && slot.pending != p && slot.due == old(slot.due) &&
              NoClaim(old(slot.log), slot.log)
      ensures Completed(old(A()), old(B()), A(), B(), p, clock, retryTimeout)
    {
      hide Whole, Orderly, SlotOk, Nudged, Less, Good, Scanning, Ready, InFlight, Awake, Completed, NoClaim;
      WholeParts(W(), E(), walking);
      ghost var a := E();
      var released := slot.ReleaseAndCall(p);
      CompleteNoFrame(p);
      WholeAborted(W(), a, E());
    }

    /** `on_resolver_node_deleted` */
    method OnNodeDeleted(p: Ptr)
      requires Valid() && !walking && p != 0
      modifies slot`state, slot`pending, slot`timer, slot`due, slot`log, this`listeners, this`paused, this`vals,
               this`pendingGet, this`pendingSet, this`cooldown, this`floor, this`tally, this`rearm, this`stack,
               this`scanRequested, this`queue, this`walk
      ensures Valid() && old(walk.asked) <= walk.asked && slot.pending != p && slot.due == old(slot.due) &&
              NoClaim(old(slot.log), slot.log)
      ensures Forgotten(p, listeners, paused, pendingGet, pendingSet, rearm)
    {
      hide Whole, Orderly, SlotOk, Forgotten;
      ForgetNode(p);
      AbortRule(p);
      ScanForListener(p);
    }

    /** A scan for the topmost listener above the node, if there is one. */
    method ScanForListener(p: Ptr)
      requires Valid() && !walking
      modifies this`stack, this`scanRequested, this`queue, this`walk
      ensures Valid() && old(walk.asked) <= walk.asked && (ListenedTo(p) ==> scanRequested)
    {
      hide Whole, Orderly, SlotOk, Good, Under;
      WholeGood(W(), E(), walking);
      var top := HighestListener(tree, listeners, p, W());
      RequestScan(top);
    }

    /** A leaf leaves the tree, under the lock of the store alone, even during a walk. What was asked of the
        current walk stays ahead of it, but for the node itself and what the deletion moves past an
        index. */
    method Unlink(p: Ptr)
      requires Valid() && p in tree && p != root && tree[p].children == []
      modifies this`tree, this`vals, this`lev, this`depth, this`walk
      ensures Valid() && tree == Removed(old(tree), {p})
      ensures exists j :: IsChildAt(old(tree), p, j) && S() == AfterShrink(old(W()), p, j, old(S()))
    {
      hide Whole, Orderly, SlotOk, Good, Removed, KeptWanted, KeptAsked;
      WholeGood(W(), E(), walking);
      ghost var j := PlaceOf(W(), p);
      WholeShrunk(W(), p, j, E(), walking);
      RemovedKeys(tree, p);
      ReplaceTree(Removed(tree, {p}), vals - {p}, lev, depth, AfterShrink(W(), p, j, S()).walk);
    }

    method ReplaceTree(newTree: Heap, newVals: Values, ghost newLev: Levels, ghost newDepth: nat, ghost newWalk: Walk)
      modifies this`tree, this`vals, this`lev, this`depth, this`walk
      ensures tree == newTree && vals == newVals && lev == newLev && depth == newDepth && walk == newWalk
    {
      tree, vals, lev, depth, walk := newTree, newVals, newLev, newDepth, newWalk;
    }

    /** A node is linked as the last child of another one, under the lock of the store alone, even during a
        walk; the callback comes later. What was asked of the current walk stays ahead of it, but for what
        only an index one beyond the children of `p` led to. */
    method LinkChild(p: Ptr, c: Ptr, typ: Typ)
      requires Valid() && p in tree && c !in tree && c != 0
      modifies this`tree, this`lev, this`depth, this`vals, this`walk
      ensures Valid() && tree == WithChild(old(tree), p, c, 0, typ) && S() == AfterGrowth(old(W()), p, old(S()))
    {
      hide Whole, Orderly, SlotOk, GrownWanted, GrownAsked, Good, WithChild;
      WholeGood(W(), E(), walking);
      LevelKnown(W(), p);
      WithChildKeys(tree, p, c, typ);
      WholeGrown(W(), p, c, typ, E(), walking);
      ReplaceTree(WithChild(tree, p, c, 0, typ), vals - {c}, lev[c := lev[p] + 1], depth + 1,
          AfterGrowth(W(), p, S()).walk);
    }

    /** `on_resolver_node_update`: a node that no longer exists is treated as deleted. */
    method NodeUpdated(p: Ptr)
      requires Valid() && !walking && p != 0
      modifies slot`state, slot`pending, slot`timer, slot`due, slot`log, this`listeners, this`paused, this`vals,
               this`pendingGet, this`pendingSet, this`cooldown, this`floor, this`tally, this`rearm, this`stack,
               this`scanRequested, this`queue, this`walk
      ensures Valid() && old(walk.asked) <= walk.asked && slot.due == old(slot.due) && NoClaim(old(slot.log), slot.log)
      ensures p in tree ==> Heeded(p)
      ensures p !in tree ==> Forgotten(p, listeners, paused, pendingGet, pendingSet, rearm)
    {
      hide Whole, Orderly, SlotOk, Resolver.Heeded, Forgotten;
      if p in tree {
        ExistingUpdated(p);
      } else {
        OnNodeDeleted(p);
      }
    }

    method ExistingUpdated(p: Ptr)
      requires Valid() && !walking && p in tree
      modifies this`pendingGet, this`pendingSet, this`cooldown, this`floor, this`stack, this`scanRequested,
               this`queue, this`walk
      ensures Valid() && old(walk.asked) <= walk.asked && Heeded(p)
    {
      hide Whole, Orderly, SlotOk, Pacing, Tidied, NeedsGet, NeedsSet, Exhausted, Good, Resolver.Heeded;
      Basics(W(), E(), walking, clock, cooldown, floor, pendingGet, tally, retries);
      ghost var a, gets, cool, low := E(), pendingGet, cooldown, floor;
      OnNodeUpdated(p);
      WholeTidied(W(), a, E(), gets, pendingGet, clock, cool, low, cooldown, floor, tally, retries);
    }

    // -- Retries --------------------------------------------------------------------------

    method ScanIfDue(p: Ptr)
      requires Valid() && !walking
      modifies this`cooldown, this`stack, this`scanRequested, this`queue, this`walk
      ensures Valid() && old(walk.asked) <= walk.asked && (p != 0 && old(Due(p)) ==> scanRequested)
    {
      hide Whole, Orderly, SlotOk, Resolver.Due, Good;
      WholeGood(W(), E(), walking);
      ghost var cooling := cooldown;
      var scan := IsToBeScanned(p);
      if cooldown != cooling { OrderlyExpire(clock, cooling, floor, pendingGet, tally, retries, p); }
      if scan { RequestScan(p); }
    }

    /** `attribute_resume_expired_pending_get_nodes`, when the timer expires: afterwards no deadline is
        without its scan or its timer. */
    method ResumeExpired()
      requires Valid() && !walking
      modifies this`cooldown, this`resumeTimer, this`stack, this`scanRequested, this`queue, this`walk
      ensures Valid() && old(walk.asked) <= walk.asked && resumeTimer == None
      ensures forall p :: Retriable(p) ==> Alarmed(pendingGet[p].timeout, clock, queue, scanRequested)
      ensures forall p :: p in cooldown && p != 0 ==> Alarmed(cooldown[p], clock, queue, scanRequested)
    {
      hide Whole, Orderly, SlotOk, Resolver.Retriable, Alarmed;
      resumeTimer := None;
      ScanAllDue();
      SetAlarm();
    }

    method ScanAllDue()
      requires Valid() && !walking
      modifies this`cooldown, this`stack, this`scanRequested, this`queue, this`walk
      ensures Valid() && old(walk.asked) <= walk.asked
    {
      hide Whole, Orderly, SlotOk;
      var rest := pendingGet.Keys;
      while rest != {}
        invariant Valid() && !walking && old(walk.asked) <= walk.asked
        decreases rest
      {
        var p :| p in rest;
        rest := rest - {p};
        ScanIfDue(p);
      }
    }

    method SetAlarm()
      requires Valid() && !walking
      modifies this`stack, this`scanRequested, this`queue, this`walk
      ensures Valid() && old(walk.asked) <= walk.asked
      ensures forall p :: Retriable(p) ==> Alarmed(pendingGet[p].timeout, clock, queue, scanRequested)
      ensures forall p :: p in cooldown && p != 0 ==> Alarmed(cooldown[p], clock, queue, scanRequested)
    {
      hide Whole, Orderly, SlotOk, Resolver.Retriable, Alarmed, Nudged, Good, Less;
      WholeGood(W(), E(), walking);
      ghost var a := E();
      RestartTimer();
      LessDrop(pendingSet, 0);
      WholeNudged(W(), false, a, E(), walking);
    }

    /** `restart_exhausted_get_resolutions_locked`: in the subtree, exactly the exhausted Gets that are
        still due start over. */
    method RestartExhausted(p: Ptr)
      requires Valid() && !walking
      modifies this`pendingGet, this`stack, this`scanRequested, this`queue, this`walk
      ensures Valid() && old(walk.asked) <= walk.asked && Cleared(A(), Subtree(W(), p), old(pendingGet), pendingGet)
      decreases if p in tree && p in lev && lev[p] <= depth then depth - lev[p] + 1 else 0
    {
      hide Whole, Orderly, SlotOk, Cleared, Subtree, NeedsGet, Exhausted, LinkedUp, NoTwins;
      ghost var gets := pendingGet;
      WholeGood(W(), E(), walking);
      RestartIfExhausted(p);
      if p !in tree {
        OutsideSubtree(W(), A(), p, gets, pendingGet);
      } else {
        var cs := tree[p].children;
        KidTreesNone(W(), p);
        for i := 0 to |cs|
          invariant Valid() && old(walk.asked) <= walk.asked &&
                    Cleared(A(), {p} + KidTrees(W(), cs, i), gets, pendingGet)
        {
          ghost var mid := pendingGet;
          RestartExhausted(cs[i]);
          ClearedMore(A(), {p} + KidTrees(W(), cs, i), Subtree(W(), cs[i]), gets, mid, pendingGet);
          KidTreesMore(W(), cs, i, p);
        }
        WholeSubtree(W(), p);
      }
    }

    method RestartIfExhausted(p: Ptr)
      requires Valid() && !walking
      modifies this`pendingGet, this`stack, this`scanRequested, this`queue, this`walk
      ensures Valid() && old(walk.asked) <= walk.asked && Cleared(A(), {p}, old(pendingGet), pendingGet)
    {
      hide Whole, Orderly, SlotOk, NeedsGet, Exhausted;
      if NeedsGet(A(), p) && Exhausted(A(), pendingGet, p) {
        DropGet(p);
        RequestScan(p);
      }
    }

    // -- Runs -----------------------------------------------------------------------------

    /** No completion call for a node is owed. */
    ghost predicate NothingOwed()
      reads this, slot
    {
      forall p :: p in slot.due ==> p == NOBODY
    }

    /** A step of the resolver thread or of a timer; a step that is not possible does nothing. Only a pass
        of the walk can claim the slot before a completion call that is owed. */
    method OwnStep(step: OwnKind)
      requires Valid()
      modifies this, slot
      ensures Valid()
      ensures CallsFirst(slot.log) <==>
              old(CallsFirst(slot.log)) &&
              (step.WalkPass? && old(walking && Claims()) ==> old(NothingOwed()))
      ensures walking && (old(walking) || step == NextEvent) && old(NothingOwed()) ==> NothingOwed()
      ensures walking ==> old(walking) || step == NextEvent
      ensures AskedKept(Own(step), old(W()), old(S()), walk.asked)
    {
      hide Whole, Orderly, SlotOk, Resolver.Retriable, Alarmed, CallsFirst, NoClaim, WalkStep, Passed, Considered,
           Followed, Skipped, Resolver.Claims;
      match step
      case NextEvent => if !walking && queue != [] && queue[0] == Next { BeginNext(); }
      case WalkPass(env) => if walking { PassStep(env); }
      case QueuedEvent => if !walking && queue != [] && queue[0] != Next { OtherEvent(); }
      case ResumeTimer => if !walking && resumeTimer.Some? && resumeTimer.value <= clock { ResumeExpired(); }
      case RuleTimer => if slot.timer.Some? && slot.timer.value <= clock { slot.Expire(); }
      case TimeoutRead => if slot.fired > 0 { slot.ReadTimedOut(); }
      case TimeoutHandled => if slot.timeouts != [] &&
          (walking ==> slot.timeouts[0].1 == GetRule) { HandleTimeoutInOrder(); }
      case TimePasses(d) => Tick(d);
    }

    method PassStep(env: Frame)
      requires Valid() && walking
      modifies this, slot
      ensures Valid() && slot.due == old(slot.due)
      ensures CallsFirst(slot.log) <==>
              old(CallsFirst(slot.log)) && (old(Claims()) ==> forall p :: p in slot.due ==> p == NOBODY)
      ensures AskedKept(Own(WalkPass(env)), old(W()), old(S()), walk.asked)
    {
      hide Whole, Orderly, SlotOk, CallsFirst, WalkStep, Considered, AskedKept, Passed, Followed, Resolver.Claims,
           Good, AllAhead;
      ghost var w, s, log, hit := W(), S(), slot.log, Hit();
      WholeAsked(w, E(), walking);
      NextPass(env);
      if hit.Some? { FollowedAsked(hit.value, Passed(w, s, WalkStep(w, s.stack).0, hit), log, E(), walking); }
      PassLoses(env, w, s, walk.asked);
    }

    method HandleTimeoutInOrder()
      requires Valid() && slot.timeouts != [] && (walking ==> slot.timeouts[0].1 == GetRule)
      modifies this, slot
      ensures Valid() && old(walk.asked) <= walk.asked && walking == old(walking) &&
              (CallsFirst(slot.log) <==> old(CallsFirst(slot.log)))
      ensures walking && old(NothingOwed()) ==> NothingOwed()
    {
      hide Whole, Orderly, SlotOk, CallsFirst, NoClaim;
      HandleTimeout();
      NoClaimKeeps(old(slot.log), slot.log);
    }

    /** A step that takes no resolver lock, and that can happen during a walk. */
    method FreeStep(step: FreeKind)
      requires Valid()
      modifies this, slot
      ensures Valid() && walking == old(walking) && (CallsFirst(slot.log) <==> old(CallsFirst(slot.log)))
      ensures walking && old(NothingOwed()) ==> NothingOwed()
      ensures AskedKept(Free(step), old(W()), old(S()), walk.asked)
    {
      hide Whole, Orderly, SlotOk, CallsFirst, NoClaim, Written, WithChild, Removed, KeptWanted, GrownWanted,
           KeptAhead, GrownAhead;
      match step
      case Change(p, state, value) => ChangeValue(p, state, value);
      case Link(p, c, typ) => if p in tree && c !in tree && c != 0 { LinkChild(p, c, typ); }
      case Cut(p) => if p in tree && p != root && tree[p].children == [] { Unlink(p); }
      case Freed(p) =>
        FreeSlot(p);
        NoClaimKeeps(old(slot.log), slot.log);
    }

    /** A step of the store, of a sender or of a client that takes the resolver lock, and waits while the
        walk is running. */
    method LockedStep(step: LockedKind)
      requires Valid() && !walking
      modifies this, slot
      ensures Valid() && old(walk.asked) <= walk.asked && !walking && NoClaim(old(slot.log), slot.log)
    {
      hide Whole, Orderly, SlotOk, Arrived, Written, Cleared, Completed, Noticed, Tidied, Resolver.Heeded;
      NoClaimAfter(slot.log, 0);
      match step
      case Sent(status, p, rule) => SendDataComplete(status, p, rule);
      case Call(p) => if p in slot.due { CompletionCall(p); }
      case Value(p, state, value) => StoreWrite(p, state, value);
      case Updated(p) => if p != 0 { NodeUpdated(p); }
      case Deleted(p) => if p != 0 { OnNodeDeleted(p); }
      case PauseNode(p) => Pause(p);
      case ResumeNode(p) => Resume(p);
      case Listen(p) => SetListener(p);
      case Unlisten(p) => ClearListener(p);
      case _ => RequestStep(step);
    }

    method RequestStep(step: LockedKind)
      requires Valid() && !walking
      modifies this
      ensures Valid() && old(walk.asked) <= walk.asked && !walking
    {
      hide Whole, Orderly, SlotOk, Written, Cleared;
      match step
      case GetAgain(p) => var found := RestartGet(p);
      case SetAgain(p) => var found := RestartSet(p);
      case ExhaustedAgain(p) => RestartExhausted(p);
      case Rearm(p, count) => RequestRearm(p, count);
      case StartGroup(p, count) => StartGroupResolution(p, count);
      case _ =>
    }

    /** Every run of the resolver, from a valid state, with every interleaving of its steps and every
        behaviour of the environment, goes through valid states only. */
    method Run(steps: seq<Step>)
      requires Valid()
      modifies this, slot
      ensures Valid()
    {
      hide Whole, Orderly, SlotOk, CallsFirst, NoClaim;
      for i := 0 to |steps|
        invariant Valid()
      {
        match steps[i]
        case Own(step) => OwnStep(step);
        case Free(step) => FreeStep(step);
        case Locked(step) => if !walking { LockedStep(step); }
      }
    }

    /** In every run in which a NEXT event waits for the completion calls that are owed, every completion
        call precedes the next claim of the slot. */
    method RunInOrder(steps: seq<Step>)
      requires Valid() && CallsFirst(slot.log) && (walking ==> NothingOwed())
      modifies this, slot
      ensures Valid() && CallsFirst(slot.log)
    {
      hide Whole, Orderly, SlotOk, CallsFirst, NoClaim;
      for i := 0 to |steps|
        invariant Valid() && CallsFirst(slot.log) && (walking ==> NothingOwed())
      {
        match steps[i]
        case Own(step) => if step != NextEvent || CallsMade() { OwnStep(step); }
        case Free(step) => FreeStep(step);
        case Locked(step) =>
          if !walking {
            ghost var log := slot.log;
            LockedStep(step);
            NoClaimKeeps(log, slot.log);
          }
      }
    }

    /** No completion call for a node is owed. */
    predicate CallsMade()
      reads this, slot
      ensures CallsMade() <==> NothingOwed()
    {
      forall p | p in slot.due :: p == NOBODY
    }

    // -- What validity means --------------------------------------------------------------

    /** No wake-up is lost. */
    lemma NoLostWakeUp()
      requires Valid() && !walking
      ensures scanRequested && stack == [] ==> Next in queue
      ensures stack != [] ==> Next in queue || slot.state != Idle || slot.due != multiset{}
    {
      hide Ready;
    }

    /** At most one node holds the slot; its claims, the ends of its claims and its completion calls
        balance; and a claimed slot has its timer armed, or its timeout on the way. */
    lemma SlotProtocol(p: Ptr)
      requires Valid() && p != NOBODY
      ensures slot.state == Idle <==> slot.pending == NOBODY
      ensures Count(slot.log, Claimed(p)) == Count(slot.log, Released(p)) + Count(slot.log, Withdrawn(p)) +
              (if slot.pending == p then 1 else 0)
      ensures Count(slot.log, Released(p)) == Count(slot.log, Called(p)) + slot.due[p]
      ensures slot.pending == p ==>
              slot.timer == Some(slot.acceptedAt + MAX_RESOLUTION_TIME) || slot.fired > 0 ||
              exists t :: t in slot.timeouts && t.0 == p
    {
      hide Ready, Scanning;
      WholeParts(W(), E(), walking);
      Balance(slot.log, p);
    }

    /** A node is among the pending Sets only while it holds the slot or its completion call is owed. */
    lemma PendingSetInFlight(p: Ptr)
      requires Valid() && p in pendingSet
      ensures (slot.pending == p && slot.state == Executing(SetRule)) || p in slot.due
    {
      hide Scanning;
    }

    /** The retry bound: the accepted Gets since an entry was made exceed its count by no more, for each give-up
        since then, than the largest retry limit so far is above the configured one. */
    lemma RetryBound(p: Ptr)
      requires Valid() && p in pendingGet
      ensures p in tally.tries && pendingGet[p].count <= Max(1, tally.highest) && retries <= tally.highest <= 255
      ensures tally.tries[p].runs <= pendingGet[p].count + tally.tries[p].ups * (Max(1, tally.highest) - retries)
    {
      hide Whole;
      assert Within(pendingGet[p], tally.tries[p], tally.highest, tally.base);
    }

    /** The accepted Gets since an entry was made do not exceed its count, if the entry was not given up since, or
        if the configured retry count is not 0 and no limit above it was ever in force. */
    lemma RetriesCounted(p: Ptr)
      requires Valid() && p in pendingGet
      ensures p in tally.tries
      ensures tally.tries[p].ups == 0 || (retries >= 1 && tally.highest == retries) ==>
                tally.tries[p].runs <= pendingGet[p].count
    {
      hide Whole;
      RetryBound(p);
    }

    /** No Set rule ever ran too early, and none can: until its time a paced node has its cooldown. */
    lemma SetsArePaced(p: Ptr)
      requires Valid()
      ensures paced
      ensures p in floor && clock < floor[p] ==> p in cooldown
      ensures p in cooldown ==> p in floor && cooldown[p] == floor[p]
    {
      hide Scanning;
    }

    /** While a scan is undisturbed, it has considered the first nodes of the pruned post-order of the
        tree as it was when the scan began; when its stack is empty, it has considered all of them. */
    lemma ScanFollowsPlan()
      requires Valid() && walk.calm
      ensures walk.scanned <= walk.plan && (stack == [] ==> walk.scanned == walk.plan)
    {
      hide Good, SlotOk;
      WholeParts(W(), E(), walking);
      if stack == [] { ScanComplete(W(), S()); }
    }

    /** What a scan under way is asked for is ahead of it, and has left it by the end of that scan. */
    lemma AskedServed()
      requires Valid()
      ensures forall q :: q in walk.asked ==> AheadOf(W(), stack, q)
      ensures stack == [] ==> walk.asked == {}
    {
      hide Good, SlotOk;
      WholeParts(W(), E(), walking);
      if stack == [] { ScanComplete(W(), S()); }
    }

    /** The WATCH events in the queue are of the nodes that were told last, one by one, and every node that was
        ever told had nothing left to resolve in its subtree then. */
    lemma ListenersToldTruly()
      requires Valid()
      ensures walk.honest
      ensures exists n :: 0 <= n <= |walk.told| && Watches(queue) == walk.told[n..]
    {
      hide Scanning;
    }

    /** A request is never dropped in silence: when no scan is under way and none is requested, every
        requested node has been considered since, or was cut off, deleted or moved past. */
    lemma RequestsServed()
      requires Valid() && stack == [] && !scanRequested
      ensures walk.wanted == {}
    {
      hide Good, SlotOk;
      WholeParts(W(), E(), walking);
      ScanComplete(W(), S());
    }
  }

  /** The pending Gets without the exhausted ones of these nodes. */
  ghost predicate Cleared(a: Attrs, part: set<Ptr>, gets: Gets, less: Gets) {
    Less(gets, less) && forall q :: q in gets ==>
        (q in less <==> !(q in part && NeedsGet(a, q) && Exhausted(a, gets, q)))
  }

  lemma ClearedMore(a: Attrs, s: set<Ptr>, t: set<Ptr>, g: Gets, h: Gets, k: Gets)
    requires Cleared(a, s, g, h) && Cleared(a, t, h, k)
    ensures Cleared(a, s + t, g, k)
  {
    hide NeedsGet, Limit;
  }

  ghost function KidTrees(w: World, cs: seq<Ptr>, i: nat): set<Ptr>
    requires i <= |cs|
  {
    set q | q in w.h && exists j :: 0 <= j < i && Under(w.h, w.lev, cs[j], q)
  }

  lemma KidTreesNone(w: World, p: Ptr)
    requires p in w.h
    ensures {p} + KidTrees(w, w.h[p].children, 0) == {p}
  {
  }

  lemma KidTreesMore(w: World, cs: seq<Ptr>, i: nat, p: Ptr)
    requires i < |cs|
    ensures {p} + KidTrees(w, cs, i) + Subtree(w, cs[i]) == {p} + KidTrees(w, cs, i + 1)
  {
    hide Under;
  }

  lemma WholeSubtree(w: World, p: Ptr)
    requires Good(w) && p in w.h
    ensures {p} + KidTrees(w, w.h[p].children, |w.h[p].children|) == Subtree(w, p)
  {
    var cs := w.h[p].children;
    assert Under(w.h, w.lev, p, p);
    forall q ensures q in {p} + KidTrees(w, cs, |cs|) <==> q in Subtree(w, p) {
      if q in Subtree(w, p) && q != p { var j := UnderDown(w.h, w.root, w.lev, w.n, p, q); }
      if j :| 0 <= j < |cs| && Under(w.h, w.lev, cs[j], q) { UnderUp(w.h, w.lev, p, cs[j], q); }
    }
  }

  lemma OutsideSubtree(w: World, a: Attrs, p: Ptr, gets: Gets, less: Gets)
    requires Good(w) && w.h == a.tree && p !in w.h && Cleared(a, {p}, gets, less)
    ensures Cleared(a, Subtree(w, p), gets, less)
  {
    hide Under;
    forall q ensures !Under(w.h, w.lev, p, q) { NothingOutside(w, p, q); }
  }

  /** `p` is child `j` of its parent. */
  ghost predicate IsChildAt(h: Heap, p: Ptr, j: nat) {
    p in h && h[p].parent.Some? && h[p].parent.value in h && j < |h[h[p].parent.value].children| &&
        h[h[p].parent.value].children[j] == p
  }

  lemma PlaceOf(w: World, p: Ptr) returns (j: nat)
    requires Good(w) && p in w.h && p != w.root
    ensures IsChildAt(w.h, p, j)
  {
    var q := w.h[p].parent.value;
    j :| 0 <= j < |w.h[q].children| && w.h[q].children[j] == p;
  }

  lemma LevelKnown(w: World, p: Ptr)
    requires Good(w) && p in w.h
    ensures p in w.lev
  {
  }

  lemma WithChildKeys(h: Heap, p: Ptr, c: Ptr, typ: Typ)
    requires p in h
    ensures WithChild(h, p, c, 0, typ).Keys == h.Keys + {c}
  {
  }

  /** With the reported value undefined, a defined desired value is a Set to do. */
  lemma RearmLeavesSet(a: Attrs, before: Values, p: Ptr)
    requires SameReported(before, a.vals)
    ensures p in a.tree && HasRule(a.book, a.tree[p].typ, SetRule) && ValOf(before, p).reported == [] &&
            ValOf(a.vals, p).desired != [] ==>
              NeedsSet(a, p)
  {
  }

  lemma NoClaimAfter(log: seq<SlotEvent>, p: Ptr)
    ensures NoClaim(log, log) && NoClaim(log, log + [Withdrawn(p)])
  {
  }

  /** The whole subtree of a requested node is ahead of the walk. */
  lemma NearestAhead(w: World, s: Stack, p: Ptr, k: int)
    requires Good(w) && Nearest(w, s, p, k)
    ensures forall q :: q in Subtree(w, p) ==> AheadOf(w, s[k := Entry(s[k].node, 0)], q)
  {
    hide Good, AheadOf, Under;
    var next := s[k := Entry(s[k].node, 0)];
    forall q | q in Subtree(w, p) ensures AheadOf(w, next, q) { StartedOverLeads(w, next, k, p, q); }
  }

  lemma StartedOverLeads(w: World, s: Stack, k: int, p: Ptr, q: Ptr)
    requires Good(w) && 0 <= k < |s| && s[k].index == 0 && Under(w.h, w.lev, s[k].node, p) && Under(w.h, w.lev, p, q)
    ensures AheadOf(w, s, q)
  {
    hide LinkedUp, NoTwins;
    UnderTrans(w.h, w.lev, s[k].node, p, q);
    AncestorInHeap(w, s[k].node, q);
    if q != s[k].node { var i := UnderDown(w.h, w.root, w.lev, w.n, s[k].node, q); }
    assert Ahead(w, s[k], q);
  }
}
