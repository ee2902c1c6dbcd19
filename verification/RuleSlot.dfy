/** The executor slot of the attribute resolver: at most one rule runs at a time, and its owner is
    told once when it is over. */
module RuleSlot {
  import opened Common
  import opened NodeHeap
  import opened RuleGroups

  const NOBODY: Ptr := 0
  const MAX_RESOLUTION_TIME: nat := 60_000

  datatype State = Idle | Executing(rule: RuleType)

  /** The history of the slot. A release commits the releasing thread to one completion call; a
      withdrawal is the end of an execution that never had a frame accepted. */
  datatype SlotEvent = Claimed(node: Ptr) | Withdrawn(node: Ptr) | Released(node: Ptr) | Called(node: Ptr)

  /** Who holds the slot after this history. */
  function Holder(log: seq<SlotEvent>): Ptr {
    if log == [] then NOBODY
    else
      match log[|log| - 1]
      case Claimed(p) => p
      case Withdrawn(_) => NOBODY
      case Released(_) => NOBODY
      case Called(_) => Holder(log[..|log| - 1])
  }

  /** The completion calls that are owed after this history. */
  function Owed(log: seq<SlotEvent>): multiset<Ptr> {
    if log == [] then multiset{}
    else
      var owed := Owed(log[..|log| - 1]);
      match log[|log| - 1]
      case Released(p) => owed + multiset{p}
      case Called(p) => owed - multiset{p}
      case _ => owed
  }

  predicate LegalNext(log: seq<SlotEvent>, e: SlotEvent) {
    match e
    case Claimed(p) => p != NOBODY && Holder(log) == NOBODY
    case Withdrawn(p) => p != NOBODY && Holder(log) == p
    case Released(p) => p != NOBODY && Holder(log) == p
    case Called(p) => p != NOBODY && p in Owed(log)
  }

  /** Only a free slot is claimed, only its holder is released, and no call is made that is not
      owed. */
  predicate Legal(log: seq<SlotEvent>) {
    log == [] || (Legal(log[..|log| - 1]) && LegalNext(log[..|log| - 1], log[|log| - 1]))
  }

  lemma Append(log: seq<SlotEvent>, e: SlotEvent)
    requires Legal(log) && LegalNext(log, e)
    ensures Legal(log + [e])
    ensures Holder(log + [e]) == (if e.Claimed? then e.node else if e.Called? then Holder(log) else NOBODY)
    ensures Owed(log + [e]) == (if e.Released? then Owed(log) + multiset{e.node} else if e.Called?
            then Owed(log) - multiset{e.node} else Owed(log))
  {
    assert (log + [e])[..|log|] == log;
  }

  // -- What a legal history means ---------------------------------------------------------

  function Count(log: seq<SlotEvent>, e: SlotEvent): nat {
    if log == [] then 0 else Count(log[..|log| - 1], e) + if log[|log| - 1] == e then 1 else 0
  }

  /** Every claim of a node ends once, by a release or a withdrawal, unless the node holds the slot
      now; and every release has had its one call, unless the call is still owed. */
  lemma {:induction false} Balance(log: seq<SlotEvent>, p: Ptr)
    requires Legal(log) && p != NOBODY
    ensures Count(log, Claimed(p)) == Count(log, Released(p)) + Count(log, Withdrawn(p)) +
            (if Holder(log) == p then 1 else 0)
    ensures Count(log, Released(p)) == Count(log, Called(p)) + Owed(log)[p]
    decreases |log|
  {
    if log != [] { Balance(log[..|log| - 1], p); }
  }

  /** A claimed slot outside of an execution has its timer armed, or its timeout on the way. */
  ghost predicate Watched(pending: Ptr, executing: bool, timer: Option<nat>, acceptedAt: nat, fired: nat,
      timeouts: seq<(Ptr, RuleType)>) {
    pending != NOBODY && !executing ==>
      timer == Some(acceptedAt + MAX_RESOLUTION_TIME) || fired > 0 || exists t :: t in timeouts && t.0 == pending
  }

  /** The history is legal and leads to this holder and these calls. */
  ghost predicate Accounted(log: seq<SlotEvent>, pending: Ptr, due: multiset<Ptr>) {
    Legal(log) && Holder(log) == pending && forall p :: p != NOBODY ==> due[p] == Owed(log)[p]
  }

  ghost predicate SlotOk(state: State, pending: Ptr, executing: bool, timer: Option<nat>, acceptedAt: nat, fired: nat,
                         timeouts: seq<(Ptr, RuleType)>, log: seq<SlotEvent>, due: multiset<Ptr>) {
    && (state == Idle <==> pending == NOBODY)
    && Watched(pending, executing, timer, acceptedAt, fired, timeouts)
    && Accounted(log, pending, due)
  }

  class Slot {
    var state: State
    var pending: Ptr
    var needsMoreFrames: bool
    var timer: Option<nat>
    /** Timers that expired and whose handler has not read the slot yet. */
    var fired: nat
    /** Handlers of expired timers that have read the slot and are about to complete the rule. */
    var timeouts: seq<(Ptr, RuleType)>
    /** Completion calls that some thread is about to make. */
    var due: multiset<Ptr>
    /** `attribute_resolver_rule_execute` is running. */
    var executing: bool
    ghost var acceptedAt: nat
    ghost var log: seq<SlotEvent>

    ghost predicate Valid()
      reads this`state, this`pending, this`executing, this`timer, this`fired, this`timeouts, this`acceptedAt,
          this`due, this`log
    {
      SlotOk(state, pending, executing, timer, acceptedAt, fired, timeouts, log, due)
    }

    constructor ()
      ensures Valid() && state == Idle && due == multiset{} && !executing && log == [] && timeouts == []
    {
      state, pending, needsMoreFrames, timer, fired, timeouts, due, executing := Idle, NOBODY, false, None, 0, [],
          multiset{}, false;
      acceptedAt, log := 0, [];
    }

    /** The first phase of `attribute_resolver_rule_execute`. */
    method Claim(node: Ptr, rule: RuleType)
      requires Valid() && state == Idle && !executing && node != NOBODY
      modifies this`state, this`pending, this`needsMoreFrames, this`executing, this`log
      ensures Valid() && state == Executing(rule) && pending == node && executing && !needsMoreFrames
      ensures log == old(log) + [Claimed(node)]
    {
      hide Legal, Holder, Owed;
      Append(log, Claimed(node));
      state, pending, needsMoreFrames, executing := Executing(rule), node, false, true;
      log := log + [Claimed(node)];
    }

    /** The send function took the frame. */
    method Accept(more: bool, now: nat)
      requires Valid() && executing && pending != NOBODY
      modifies this`needsMoreFrames, this`timer, this`executing, this`acceptedAt
      ensures Valid() && !executing && needsMoreFrames == more && timer == Some(now + MAX_RESOLUTION_TIME)
    {
      hide Accounted;
      needsMoreFrames, executing, acceptedAt := more, false, now;
      timer := Some(now + MAX_RESOLUTION_TIME);
    }

    /** `reset_state`: the execution ends without a frame, unless it was completed already. */
    method Withdraw(node: Ptr)
      requires Valid() && executing && node != NOBODY && (pending == node || pending == NOBODY)
      modifies this`state, this`pending, this`executing, this`log
      ensures Valid() && !executing && state == Idle && pending == NOBODY
      ensures log == if old(pending) == node then old(log) + [Withdrawn(node)] else old(log)
    {
      hide Legal, Holder, Owed;
      if pending == node {
        Append(log, Withdrawn(node));
        log := log + [Withdrawn(node)];
        state, pending := Idle, NOBODY;
      }
      executing := false;
    }

    /** The end of `on_resolver_send_data_complete`, and `attribute_resolver_rule_abort`: if the
        node holds the slot, the slot is freed and a completion call is owed. With no node at all
        the comparison also succeeds, and a call for no node is owed. */
    method Release(node: Ptr) returns (released: bool)
      requires Valid()
      modifies this`state, this`pending, this`timer, this`due, this`log
      ensures Valid() && released == (old(pending) == node)
      ensures released ==> state == Idle && pending == NOBODY && due == old(due) + multiset{node}
      ensures !released ==>
              state == old(state) && pending == old(pending) && timer == old(timer) &&
              due == old(due) && log == old(log)
      ensures log == if released && node != NOBODY then old(log) + [Released(node)] else old(log)
      ensures NoClaim(old(log), log)
    {
      hide Legal, Holder, Owed;
      released := pending == node;
      if released {
        if node != NOBODY {
          Append(log, Released(node));
          log := log + [Released(node)];
        }
        state, pending, timer := Idle, NOBODY, None;
        due := due + multiset{node};
      }
    }

    /** A completion call is made. */
    method Call(node: Ptr)
      requires Valid() && node in due
      modifies this`due, this`log
      ensures Valid() && due == old(due) - multiset{node}
      ensures log == if node != NOBODY then old(log) + [Called(node)] else old(log)
      ensures NoClaim(old(log), log)
    {
      hide Legal, Holder, Owed;
      if node != NOBODY {
        assert node in Owed(log);
        Append(log, Called(node));
        log := log + [Called(node)];
      }
      due := due - multiset{node};
    }

    /** Release and call in one go, on a thread that makes the call itself. */
    method ReleaseAndCall(node: Ptr) returns (released: bool)
      requires Valid()
      modifies this`state, this`pending, this`timer, this`due, this`log
      ensures Valid() && released == (old(pending) == node) && due == old(due)
      ensures released ==> state == Idle && pending == NOBODY
      ensures !released ==> state == old(state) && pending == old(pending) && timer == old(timer) && log == old(log)
      ensures log == if released && node != NOBODY then old(log) + [Released(node), Called(node)] else old(log)
      ensures NoClaim(old(log), log)
    {
      hide SlotOk;
      released := Release(node);
      if released { Call(node); }
    }

    /** The rule timer expires. */
    method Expire()
      requires Valid() && timer.Some?
      modifies this`timer, this`fired
      ensures Valid() && timer == None && fired == old(fired) + 1
    {
      hide Accounted;
      timer, fired := None, fired + 1;
    }

    /** The start of `on_rule_execution_timeout`: the handler reads who holds the slot. */
    method ReadTimedOut()
      requires Valid() && fired > 0
      modifies this`fired, this`timeouts
      ensures Valid() && fired == old(fired) - 1
      ensures timeouts == old(timeouts) + [(pending, if state == Executing(SetRule) then SetRule else GetRule)]
    {
      hide Accounted;
      ghost var t := (pending, if state == Executing(SetRule) then SetRule else GetRule);
      timeouts := timeouts + [(pending, if state == Executing(SetRule) then SetRule else GetRule)];
      fired := fired - 1;
      assert t in timeouts;
    }

    /** The handler that read the slot first has completed the rule. */
    method DropTimedOut()
      requires Valid() && timeouts != [] && (pending == NOBODY || pending != timeouts[0].0)
      modifies this`timeouts
      ensures Valid() && timeouts == old(timeouts)[1..]
    {
      hide Accounted;
      timeouts := timeouts[1..];
      assert forall u :: u in old(timeouts) ==> u == old(timeouts)[0] || u in timeouts;
    }
  }

  /** Every claim found all completion calls made. */
  predicate CallsFirst(log: seq<SlotEvent>) {
    log == [] || (CallsFirst(log[..|log| - 1]) && (log[|log| - 1].Claimed? ==> Owed(log[..|log| - 1]) == multiset{}))
  }

  /** An execution for `p`: nothing, or a claim and then other events. */
  ghost predicate Executed(p: Ptr, a: seq<SlotEvent>, b: seq<SlotEvent>) {
    b == a || (a + [Claimed(p)] <= b && forall i :: |a| < i < |b| ==> !b[i].Claimed?)
  }

  /** No claim is added. */
  ghost predicate NoClaim(a: seq<SlotEvent>, b: seq<SlotEvent>) {
    a <= b && forall i :: |a| <= i < |b| ==> !b[i].Claimed?
  }

  lemma NoClaimTrans(a: seq<SlotEvent>, b: seq<SlotEvent>, c: seq<SlotEvent>)
    requires NoClaim(a, b) && NoClaim(b, c)
    ensures NoClaim(a, c)
  {
    forall i | |a| <= i < |c| ensures !c[i].Claimed? {
      if i < |b| { assert c[i] == b[i]; }
    }
  }

  lemma ClaimedOnce(p: Ptr, a: seq<SlotEvent>, b: seq<SlotEvent>)
    requires NoClaim(a + [Claimed(p)], b)
    ensures Executed(p, a, b) && b != a
  {
  }

  lemma {:induction false} NoClaimKeeps(a: seq<SlotEvent>, b: seq<SlotEvent>)
    requires NoClaim(a, b)
    ensures CallsFirst(b) <==> CallsFirst(a)
    decreases |b|
  {
    if |a| < |b| {
      var c := b[..|b| - 1];
      assert a <= c && NoClaim(a, c);
      NoClaimKeeps(a, c);
    } else {
      assert a == b;
    }
  }

  /** An execution keeps the calls before the claims if and only if it claims nothing or no call is owed
      when it begins. */
  lemma ExecutedKeepsIff(p: Ptr, a: seq<SlotEvent>, b: seq<SlotEvent>)
    requires Executed(p, a, b)
    ensures CallsFirst(b) <==> CallsFirst(a) && (b == a || Owed(a) == multiset{})
  {
    if b != a {
      var c := a + [Claimed(p)];
      assert c[..|c| - 1] == a;
      NoClaimKeeps(c, b);
    }
  }

  /** In a legal history with these calls on the way nothing is owed if and only if no call for a node is
      on the way. */
  lemma OwedIsDue(log: seq<SlotEvent>, pending: Ptr, due: multiset<Ptr>)
    requires Accounted(log, pending, due)
    ensures Owed(log) == multiset{} <==> forall p :: p in due ==> p == NOBODY
  {
    OwedNobody(log);
  }

  lemma SlotOwed(slot: Slot)
    requires slot.Valid()
    ensures Owed(slot.log) == multiset{} <==> forall p :: p in slot.due ==> p == NOBODY
  {
    OwedIsDue(slot.log, slot.pending, slot.due);
  }

  lemma {:induction false} OwedNobody(log: seq<SlotEvent>)
    requires Legal(log)
    ensures NOBODY !in Owed(log)
    decreases |log|
  {
    if log != [] { OwedNobody(log[..|log| - 1]); }
  }
}
