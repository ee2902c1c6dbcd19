/** Lock discipline of the attribute store, resolver and timeout components: the call paths that
    take locks, a small-step semantics for any number of threads running them, and freedom from
    deadlock in every reachable state. */
module LockOrder {

  /** The mutexes, in the order in which they are taken. */
  datatype Lock = TimeoutCallback | Resolver | Rule | ResolutionList | Store | CallbackList | TimeoutList | Supervision

  function Rank(l: Lock): (r: nat)
    ensures 1 <= r <= 8
  {
    match l
    case TimeoutCallback => 1
    case Resolver => 2
    case Rule => 3
    case ResolutionList => 4
    case Store => 5
    case CallbackList => 6
    case TimeoutList => 7
    case Supervision => 8
  }

  lemma RankInjective(a: Lock, b: Lock)
    requires Rank(a) == Rank(b)
    ensures a == b
  {
  }

  /** `std::recursive_mutex` */
  predicate Recursive(l: Lock) {
    l == Resolver || l == Store
  }

  // -- The call paths ---------------------------------------------------------------------

  /** The functions of the components and the blocks inside them, as far as they take locks or
      call functions that do. */
  datatype Block =
    | Nothing | StoreRead | StoreNested | StoreAgain | SetValue | AddNode | DeleteNode | DeleteChild
    | DeleteSelf | Save | StoreTeardown | StoreTeardownLocked | InvokeCallbacks | InvokeOne | RegisterCallback
    | OnNodeUpdate | OnNodeUpdateLocked | PausedCheck | PausedLocked | NeedsResolution | NeedsResolutionLocked
    | RuleComplete | RuleCompleteLocked | RestartTimer | RetryCandidate | GiveUp | EvNext | EvNextLocked
    | ConsiderNode | EvWatch | ResumeTimer | Pause | Resume | ResumeLocked | RestartSet | RestartSetLocked
    | RestartGet | StartGroup | StartGroupLocked | NeedsRule | GroupNodes | RuleBusy | LogPending | RuleExecute
    | SendDataComplete | SettleGroup | RuleAbort | RuleTimeout | RuleRegister | Send | TransmitComplete
    | AbortPending | TimeoutSet | TimeoutHandler | TimeoutHandlerLocked | TimeoutOne | TimeoutTeardown
    | TimeoutTeardownLocked | TimeoutNodeDeleted | SupervisionTypes

  /** `Take` runs a block with the lock held; `Maybe` runs a block or skips it; `Repeat` runs it
      any number of times. */
  datatype Op = Take(lock: Lock, block: Block) | Call(block: Block) | Maybe(block: Block) | Repeat(block: Block)

  function Body(b: Block): seq<Op> {
    match b
    case Nothing => []
    // attribute_store.cpp: every access takes the store lock, and some re-enter themselves.
    case StoreRead => [Take(Store, StoreNested)]
    case StoreNested => [Repeat(StoreAgain)]
    case StoreAgain => [Take(Store, Nothing)]
    case SetValue => [Take(Store, Nothing), Maybe(InvokeCallbacks)]
    case AddNode => [Take(Store, Nothing), Maybe(InvokeCallbacks)]
    case DeleteNode => [Take(Store, Nothing), Repeat(DeleteChild), Take(Store, Nothing), Maybe(DeleteSelf)]
    case DeleteChild => [Take(Store, Nothing), Call(DeleteNode)]
    case DeleteSelf => [Call(InvokeCallbacks), Take(Store, Nothing)]
    case Save => [Take(Store, StoreNested)]
    case StoreTeardown => [Take(Store, StoreTeardownLocked)]
    case StoreTeardownLocked => [Take(CallbackList, Nothing), Call(Save)]
    // attribute_store_callbacks.cpp: snapshot under the lock, call outside it.
    case InvokeCallbacks => [Take(CallbackList, Nothing), Repeat(InvokeOne)]
    case InvokeOne => [Maybe(OnNodeUpdate), Maybe(TimeoutNodeDeleted)]
    case RegisterCallback => [Take(CallbackList, Nothing)]
    // attribute_resolver.cpp
    case OnNodeUpdate => [Call(StoreRead), Take(Resolver, OnNodeUpdateLocked)]
    case OnNodeUpdateLocked =>
      [Call(StoreRead), Call(NeedsRule), Maybe(RuleAbort),
       Call(PausedCheck), Repeat(StoreRead)]
    case PausedCheck => [Take(Resolver, PausedLocked)]
    case PausedLocked => [Repeat(StoreRead)]
    case NeedsResolution => [Take(Resolver, NeedsResolutionLocked)]
    case NeedsResolutionLocked => [Call(NeedsRule), Call(StoreRead), Repeat(NeedsResolution)]
    case RuleComplete => [Take(Resolver, RuleCompleteLocked)]
    case RuleCompleteLocked =>
      [Call(NeedsRule), Maybe(RestartTimer), Maybe(GiveUp),
       Maybe(SetValue), Maybe(RestartTimer), Maybe(NeedsResolution)]
    case RestartTimer => [Repeat(RetryCandidate)]
    case RetryCandidate => [Call(StoreRead), Call(PausedCheck), Call(NeedsRule)]
    case GiveUp => [Call(GroupNodes), Repeat(SetValue), Call(StoreRead)]
    case EvNext => [Call(StoreRead), Take(Resolver, EvNextLocked)]
    case EvNextLocked => [Call(StoreRead), Call(RuleBusy), Repeat(ConsiderNode)]
    case ConsiderNode =>
      [Call(PausedCheck), Call(StoreRead), Call(NeedsRule), Maybe(GroupNodes),
       Maybe(RuleExecute), Maybe(RuleComplete), Maybe(RestartTimer)]
    case EvWatch => [Take(Resolver, Nothing)]
    case ResumeTimer => [Call(StoreRead), Take(Resolver, RestartTimer)]
    case Pause => [Take(Resolver, Nothing)]
    case Resume => [Take(Resolver, ResumeLocked)]
    case ResumeLocked => [Repeat(StoreRead), Repeat(PausedCheck)]
    case RestartSet => [Take(Resolver, RestartSetLocked)]
    case RestartSetLocked => [Call(Resume), Call(AbortPending), Repeat(StoreRead)]
    case RestartGet => [Take(Resolver, PausedLocked)]
    case StartGroup => [Take(Resolver, StartGroupLocked)]
    case StartGroupLocked => [Call(StoreRead), Maybe(SupervisionTypes), Call(SetValue), Call(SetValue)]
    // attribute_resolver_rule.cpp
    case NeedsRule => [Call(StoreRead), Take(Rule, Nothing), Call(StoreRead)]
    case GroupNodes => [Call(StoreRead), Take(Rule, StoreRead), Repeat(StoreRead)]
    case RuleBusy => [Take(Rule, LogPending)]
    case LogPending => [Maybe(StoreRead)]
    case RuleExecute =>
      [Call(StoreRead), Take(Rule, LogPending), Repeat(StoreRead),
       Maybe(Send), Take(Rule, Nothing)]
    case SendDataComplete =>
      [Take(Rule, Nothing), Call(StoreRead), Maybe(SetValue),
       Maybe(SettleGroup), Take(Rule, Nothing), Maybe(RuleComplete)]
    case SettleGroup => [Call(GroupNodes), Repeat(SetValue)]
    case RuleAbort => [Take(Rule, Nothing), Maybe(RuleComplete)]
    case RuleTimeout => [Take(Rule, Nothing), Call(SendDataComplete)]
    case RuleRegister => [Take(Rule, Nothing), Take(Resolver, RegisterCallback)]
    // zpc_attribute_resolver_send.c and zpc_attribute_resolver_callbacks.cpp
    case Send =>
      [Take(ResolutionList, Nothing), Call(StoreRead), Maybe(SupervisionTypes), Take(ResolutionList, Nothing),
       Maybe(TransmitComplete), Take(ResolutionList, Nothing)]
    case TransmitComplete =>
      [Take(ResolutionList, StoreRead), Call(StoreRead),
       Maybe(TimeoutSet), Call(SendDataComplete)]
    case AbortPending => [Take(ResolutionList, Nothing), Maybe(SendDataComplete)]
    // attribute_timeouts.cpp; the deferred callbacks restart a resolution.
    case TimeoutSet => [Take(TimeoutList, Nothing)]
    case TimeoutHandler => [Take(TimeoutCallback, TimeoutHandlerLocked)]
    case TimeoutHandlerLocked => [Repeat(TimeoutOne)]
    case TimeoutOne => [Take(TimeoutList, Nothing), Maybe(RestartSet), Maybe(RestartGet)]
    case TimeoutTeardown => [Take(TimeoutCallback, TimeoutTeardownLocked)]
    case TimeoutTeardownLocked => [Take(TimeoutList, Nothing)]
    case TimeoutNodeDeleted => [Take(TimeoutList, Nothing)]
    // zpc_attribute_resolver_send.c: the registry of the types without supervision.
    case SupervisionTypes => [Take(Supervision, Nothing)]
  }

  /** The highest rank that may be held on entry to a block; 0 means that nothing may be held. */
  function Ceiling(b: Block): (c: nat)
    ensures c <= 8
  {
    match b
    case TimeoutHandler => 0
    case TimeoutTeardown => 0
    case TimeoutHandlerLocked => 1
    case TimeoutOne => 1
    case StoreRead => 5
    case StoreNested => 5
    case StoreAgain => 5
    case Save => 5
    case StoreTeardown => 5
    case StoreTeardownLocked => 5
    case RegisterCallback => 5
    case PausedLocked => 5
    case LogPending => 5
    case TimeoutSet => 6
    case TimeoutTeardownLocked => 6
    case TimeoutNodeDeleted => 6
    case SupervisionTypes => 7
    case Nothing => 8
    case _ => 2
  }

  /** An operation that takes locks only upwards when nothing above rank `m` is held. A lock may
      be taken again only if it is recursive and is the highest one held. */
  predicate Upward(op: Op, m: nat) {
    match op
    case Take(l, b) => (Rank(l) > m || (Rank(l) == m && Recursive(l))) && Rank(l) <= Ceiling(b)
    case Call(b) => m <= Ceiling(b)
    case Maybe(b) => m <= Ceiling(b)
    case Repeat(b) => m <= Ceiling(b)
  }

  predicate AllUpward(c: seq<Op>, m: nat) {
    forall i :: 0 <= i < |c| ==> Upward(c[i], m)
  }

  /** The blocks of the attribute store. */
  predicate InStore(b: Block) {
    match b
    case Nothing => true
    case StoreRead => true
    case StoreNested => true
    case StoreAgain => true
    case SetValue => true
    case AddNode => true
    case DeleteNode => true
    case DeleteChild => true
    case DeleteSelf => true
    case Save => true
    case StoreTeardown => true
    case StoreTeardownLocked => true
    case InvokeCallbacks => true
    case InvokeOne => true
    case RegisterCallback => true
    case _ => false
  }

  /** The blocks of the attribute resolver. */
  predicate InResolver(b: Block) {
    match b
    case OnNodeUpdate => true
    case OnNodeUpdateLocked => true
    case PausedCheck => true
    case PausedLocked => true
    case NeedsResolution => true
    case NeedsResolutionLocked => true
    case RuleComplete => true
    case RuleCompleteLocked => true
    case RestartTimer => true
    case RetryCandidate => true
    case GiveUp => true
    case EvNext => true
    case EvNextLocked => true
    case ConsiderNode => true
    case EvWatch => true
    case ResumeTimer => true
    case Pause => true
    case Resume => true
    case ResumeLocked => true
    case RestartSet => true
    case RestartSetLocked => true
    case RestartGet => true
    case StartGroup => true
    case StartGroupLocked => true
    case _ => false
  }

  lemma StoreUpward(b: Block)
    requires InStore(b)
    ensures AllUpward(Body(b), Ceiling(b))
  {
  }

  lemma ResolverUpward(b: Block)
    requires InResolver(b)
    ensures AllUpward(Body(b), Ceiling(b))
  {
  }

  lemma RuleUpward(b: Block)
    requires !InStore(b) && !InResolver(b)
    ensures AllUpward(Body(b), Ceiling(b))
  {
  }

  /** Every block of the table respects the order. */
  lemma TableUpward(b: Block)
    ensures AllUpward(Body(b), Ceiling(b))
  {
    hide AllUpward, Body, Ceiling;
    if InStore(b) { StoreUpward(b); } else if InResolver(b) { ResolverUpward(b); } else { RuleUpward(b); }
  }

  lemma UpwardMonotone(c: seq<Op>, m: nat, m': nat)
    requires AllUpward(c, m) && m' <= m
    ensures AllUpward(c, m')
  {
    forall i | 0 <= i < |c| ensures Upward(c[i], m') { assert Upward(c[i], m); }
  }

  // -- Threads ----------------------------------------------------------------------------

  /** What is left to do after the current code: code to resume, locks to release. */
  datatype Kont = Stop | Then(code: seq<Op>, k: Kont) | Unlock(lock: Lock, k: Kont)

  datatype Thread = Thread(code: seq<Op>, k: Kont)

  function Held(k: Kont): (s: set<Lock>) {
    match k
    case Stop => {}
    case Then(_, k') => Held(k')
    case Unlock(l, k') => {l} + Held(k')
  }

  /** The rank of the innermost lock held, 0 when there is none. */
  function Top(k: Kont): (m: nat)
    ensures m == 0 || exists l :: l in Held(k) && Rank(l) == m
  {
    match k
    case Stop => 0
    case Then(_, k') => Top(k')
    case Unlock(l, k') => Rank(l)
  }

  predicate Finished(t: Thread) {
    t.code == [] && t.k.Stop?
  }

  /** The thread's next operation takes lock `l`. */
  predicate Wants(t: Thread, l: Lock) {
    t.code != [] && t.code[0].Take? && t.code[0].lock == l
  }

  /** Thread `i` may take `l`: nobody else has it, and it is not taken twice unless recursive. */
  ghost predicate Available(ts: seq<Thread>, i: int, l: Lock)
    requires 0 <= i < |ts|
  {
    && (forall j :: 0 <= j < |ts| && j != i ==> l !in Held(ts[j].k))
    && (l in Held(ts[i].k) ==> Recursive(l))
  }

  /** One step of a thread; `enter` resolves the choice of `Maybe` and `Repeat`. */
  function Advance(t: Thread, enter: bool): Thread
    requires !Finished(t)
  {
    if t.code == [] then
      if t.k.Then? then Thread(t.k.code, t.k.k) else Thread([], t.k.k)
    else
      var next := Then(t.code[1..], t.k);
      match t.code[0]
      case Take(l, b) => Thread(Body(b), Unlock(l, next))
      case Call(b) => Thread(Body(b), next)
      case Maybe(b) => if enter then Thread(Body(b), next) else Thread(t.code[1..], t.k)
      case Repeat(b) => if enter then Thread(Body(b), Then(t.code, t.k)) else Thread(t.code[1..], t.k)
  }

  ghost predicate CanStep(ts: seq<Thread>, i: int) {
    0 <= i < |ts| && !Finished(ts[i]) && forall l :: Wants(ts[i], l) ==> Available(ts, i, l)
  }

  ghost predicate Step(ts: seq<Thread>, ts': seq<Thread>, i: int, enter: bool) {
    CanStep(ts, i) && ts' == ts[i := Advance(ts[i], enter)]
  }

  ghost predicate Steps(ts: seq<Thread>, ts': seq<Thread>) {
    exists i, enter :: Step(ts, ts', i, enter)
  }

  /** Every thread starts in some block with no lock held. */
  ghost predicate Start(ts: seq<Thread>) {
    forall i :: 0 <= i < |ts| ==> exists b: Block :: ts[i] == Thread(Body(b), Stop)
  }

  /** A run: any interleaving of any number of threads. */
  ghost predicate IsRun(run: seq<seq<Thread>>) {
    && |run| > 0 && Start(run[0])
    && forall n :: 0 <= n < |run| - 1 ==> Steps(run[n], run[n + 1])
  }

  // -- What every step keeps --------------------------------------------------------------

  ghost predicate KontUpward(k: Kont) {
    match k
    case Stop => true
    case Then(c, k') => AllUpward(c, Top(k')) && KontUpward(k')
    case Unlock(l, k') => (Rank(l) > Top(k') || (Rank(l) == Top(k') && Recursive(l))) && KontUpward(k')
  }

  ghost predicate ThreadUpward(t: Thread) {
    AllUpward(t.code, Top(t.k)) && KontUpward(t.k)
  }

  ghost predicate Exclusive(ts: seq<Thread>) {
    forall i, j :: 0 <= i < j < |ts| ==> Held(ts[i].k) !! Held(ts[j].k)
  }

  ghost predicate Ordered(ts: seq<Thread>) {
    Exclusive(ts) && forall i :: 0 <= i < |ts| ==> ThreadUpward(ts[i])
  }

  lemma {:induction false} TopIsHighest(k: Kont, l: Lock)
    requires KontUpward(k) && l in Held(k)
    ensures Rank(l) <= Top(k)
  {
    match k
    case Then(_, k') => TopIsHighest(k', l);
    case Unlock(h, k') => if l != h { TopIsHighest(k', l); }
  }

  lemma EnterUpward(b: Block, m: nat)
    requires m <= Ceiling(b)
    ensures AllUpward(Body(b), m)
  {
    TableUpward(b);
    UpwardMonotone(Body(b), Ceiling(b), m);
  }

  lemma AdvanceUpward(t: Thread, enter: bool)
    requires ThreadUpward(t) && !Finished(t)
    ensures ThreadUpward(Advance(t, enter))
  {
    if t.code != [] {
      var op, m := t.code[0], Top(t.k);
      assert Upward(op, m);
      EnterUpward(op.block, if op.Take? then Rank(op.lock) else m);
      assert AllUpward(t.code[1..], m);
    }
  }

  lemma AdvanceHeld(t: Thread, enter: bool)
    requires !Finished(t)
    ensures forall l :: l in Held(Advance(t, enter).k) ==> l in Held(t.k) || Wants(t, l)
  {
  }

  lemma StepOrdered(ts: seq<Thread>, ts': seq<Thread>, i: int, enter: bool)
    requires Ordered(ts) && Step(ts, ts', i, enter)
    ensures Ordered(ts')
  {
    AdvanceUpward(ts[i], enter);
    AdvanceHeld(ts[i], enter);
    forall a, b | 0 <= a < b < |ts'| ensures Held(ts'[a].k) !! Held(ts'[b].k) {
      assert Held(ts[a].k) !! Held(ts[b].k);
    }
  }

  lemma {:induction false} RunOrdered(run: seq<seq<Thread>>)
    requires IsRun(run)
    ensures Ordered(run[|run| - 1])
    decreases |run|
  {
    if |run| == 1 {
      var ts := run[0];
      forall i | 0 <= i < |ts| ensures ThreadUpward(ts[i]) && Held(ts[i].k) == {} {
        var b: Block :| ts[i] == Thread(Body(b), Stop);
        EnterUpward(b, 0);
      }
    } else {
      var before := run[..|run| - 1];
      RunOrdered(before);
      assert Steps(run[|run| - 2], run[|run| - 1]);
      var i, enter :| Step(run[|run| - 2], run[|run| - 1], i, enter);
      StepOrdered(run[|run| - 2], run[|run| - 1], i, enter);
    }
  }

  // -- No deadlock ------------------------------------------------------------------------

  /** A lock at the top of what a thread holds is available to it again, if it is recursive. */
  lemma OwnTopAvailable(ts: seq<Thread>, i: int, l: Lock)
    requires Ordered(ts) && 0 <= i < |ts| && Recursive(l) && Rank(l) == Top(ts[i].k)
    ensures Available(ts, i, l)
  {
    var h :| h in Held(ts[i].k) && Rank(h) == Rank(l);
    RankInjective(h, l);
    forall j | 0 <= j < |ts| && j != i ensures l !in Held(ts[j].k) {
      assert if i < j then Held(ts[i].k) !! Held(ts[j].k) else Held(ts[j].k) !! Held(ts[i].k);
    }
  }

  /** A blocked thread waits for a lock that some other thread holds, and that ranks above
      everything the blocked thread holds. */
  lemma BlockedWaitsUpward(ts: seq<Thread>, i: int) returns (l: Lock, j: int)
    requires Ordered(ts) && 0 <= i < |ts| && !Finished(ts[i]) && !CanStep(ts, i)
    ensures 0 <= j < |ts| && j != i && Wants(ts[i], l) && l in Held(ts[j].k)
    ensures Rank(l) > Top(ts[i].k)
  {
    l :| Wants(ts[i], l) && !Available(ts, i, l);
    assert ThreadUpward(ts[i]) && Upward(ts[i].code[0], Top(ts[i].k));
    if Rank(l) == Top(ts[i].k) { OwnTopAvailable(ts, i, l); }
    if l in Held(ts[i].k) { TopIsHighest(ts[i].k, l); }
    j :| 0 <= j < |ts| && j != i && l in Held(ts[j].k);
  }

  /** Following the chain of holders from any unfinished thread reaches one that can step. */
  lemma {:induction false} SomebodyCanStep(ts: seq<Thread>, i: int) returns (j: int)
    requires Ordered(ts) && 0 <= i < |ts| && !Finished(ts[i])
    ensures CanStep(ts, j)
    decreases 8 - Top(ts[i].k)
  {
    if CanStep(ts, i) { return i; }
    var l, holder := BlockedWaitsUpward(ts, i);
    TopIsHighest(ts[holder].k, l);
    j := SomebodyCanStep(ts, holder);
  }

  /** In every reachable state of every interleaving, either all threads are finished or some
      thread can take a step: no cyclic wait ever forms. */
  lemma DeadlockFree(run: seq<seq<Thread>>)
    requires IsRun(run)
    ensures var ts := run[|run| - 1];
            (forall i :: 0 <= i < |ts| ==> Finished(ts[i])) || (exists j :: CanStep(ts, j))
  {
    RunOrdered(run);
    var ts := run[|run| - 1];
    if i :| 0 <= i < |ts| && !Finished(ts[i]) {
      var j := SomebodyCanStep(ts, i);
    }
  }

  /** The rule written next to the rule mutex is necessary: a thread that calls the completion function
      with that mutex held, and a resolver thread that asks whether a rule is under way, reach a state
      in two steps where neither is finished and neither can step. */
  lemma CompletionUnderLockDeadlocks()
    ensures var start := [Thread([Take(Rule, RuleComplete)], Stop), Thread([Take(Resolver, RuleBusy)], Stop)];
            var half := start[0 := Advance(start[0], true)];
            var stuck := half[1 := Advance(half[1], true)];
            Step(start, half, 0, true) && Step(half, stuck, 1, true) &&
            (forall i :: 0 <= i < |stuck| ==> !Finished(stuck[i]) && !CanStep(stuck, i))
  {
    var a, b := Thread([Take(Rule, RuleComplete)], Stop), Thread([Take(Resolver, RuleBusy)], Stop);
    var c, d := Advance(a, true), Advance(b, true);
    assert a.code[1..] == [] && b.code[1..] == [];
    assert c == Thread([Take(Resolver, RuleCompleteLocked)], Unlock(Rule, Then([], Stop)));
    assert d == Thread([Take(Rule, LogPending)], Unlock(Resolver, Then([], Stop)));
    var start := [a, b];
    assert CanStep(start, 0);
    var half := [c, b];
    assert start[0 := c] == half;
    assert CanStep(half, 1);
    var stuck := [c, d];
    assert half[1 := d] == stuck;
    assert Wants(stuck[0], Resolver) && Resolver in Held(stuck[1].k);
    assert Wants(stuck[1], Rule) && Rule in Held(stuck[0].k);
  }
}
