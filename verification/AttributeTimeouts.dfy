/** Attribute timeouts: a multimap of (attribute, callback, deadline) entries served by one
    shared timer. Timestamps are `nat`; the shared timer is an armed deadline or nothing. */
module AttributeTimeouts {
  import opened Common

  type Node = nat
  type Callback = nat
  type Time = nat

  const INVALID_NODE: Node := 0
  const NO_CALLBACK: Callback := 0

  datatype Key = Key(node: Node, callback: Callback)

  datatype Entry = Entry(key: Key, deadline: Time)

  // -- The history of a run ---------------------------------------------------------------

  /** What a caller can observe of the component. */
  datatype Event =
    | WasSet(key: Key, deadline: Time)
    | WasCancelled(key: Key)
    | NodeDeleted(node: Node)
    | Cleared
    | Taken(key: Key, at: Time)

  /** The deadline of the latest set of `key` that was not yet taken, cancelled or deleted. */
  function Due(log: seq<Event>, key: Key): Option<Time> {
    if log == [] then None
    else
      var rest := log[..|log| - 1];
      match log[|log| - 1]
      case WasSet(k, d) => if k == key then Some(d) else Due(rest, key)
      case WasCancelled(k) => if k == key then None else Due(rest, key)
      case NodeDeleted(n) => if n == key.node then None else Due(rest, key)
      case Cleared => None
      case Taken(k, _) => if k == key then None else Due(rest, key)
  }

  /** Every callback that was taken was due: its latest set was neither cancelled nor deleted
      nor already taken, and its deadline had passed. */
  ghost predicate Lawful(log: seq<Event>) {
    forall i :: 0 <= i < |log| && log[i].Taken? ==>
      Due(log[..i], log[i].key).Some? && Due(log[..i], log[i].key).value <= log[i].at
  }

  lemma DueStep(log: seq<Event>, e: Event, key: Key)
    ensures Due(log + [e], key) ==
            match e
            case WasSet(k, d) => if k == key then Some(d) else Due(log, key)
            case WasCancelled(k) => if k == key then None else Due(log, key)
            case NodeDeleted(n) => if n == key.node then None else Due(log, key)
            case Cleared => None
            case Taken(k, _) => if k == key then None else Due(log, key)
  {
    assert (log + [e])[..|log|] == log;
  }

  lemma LawfulStep(log: seq<Event>, e: Event)
    requires Lawful(log)
    requires e.Taken? ==> Due(log, e.key).Some? && Due(log, e.key).value <= e.at
    ensures Lawful(log + [e])
  {
    var l := log + [e];
    forall i | 0 <= i < |l| && l[i].Taken?
      ensures Due(l[..i], l[i].key).Some? && Due(l[..i], l[i].key).value <= l[i].at
    {
      if i < |log| { assert l[..i] == log[..i] && l[i] == log[i]; } else { assert l[..i] == log; }
    }
  }

  // -- The list of entries ----------------------------------------------------------------

  ghost predicate UniqueKeys(s: seq<Entry>) {
    forall i, j :: 0 <= i < j < |s| ==> s[i].key != s[j].key
  }

  /** Entry `i` is the one for `key`. */
  ghost predicate At(s: seq<Entry>, i: int, key: Key, deadline: Time) {
    0 <= i < |s| && s[i] == Entry(key, deadline)
  }

  /** The list holds exactly the timeouts that are due according to the history. */
  ghost predicate Tracks(s: seq<Entry>, log: seq<Event>) {
    && UniqueKeys(s)
    && (forall i :: 0 <= i < |s| ==> Due(log, s[i].key) == Some(s[i].deadline))
    && (forall k: Key :: Due(log, k).Some? ==> exists i :: At(s, i, k, Due(log, k).value))
  }

  /** Where a multimap inserts a new entry: after the entries of the same or smaller nodes. */
  function UpperBound(s: seq<Entry>, node: Node): (i: nat)
    ensures i <= |s|
  {
    if s == [] || s[0].key.node > node then 0 else 1 + UpperBound(s[1..], node)
  }

  function InsertAt(s: seq<Entry>, i: nat, e: Entry): seq<Entry>
    requires i <= |s|
  {
    s[..i] + [e] + s[i..]
  }

  function RemoveAt(s: seq<Entry>, i: nat): seq<Entry>
    requires i < |s|
  {
    s[..i] + s[i + 1..]
  }

  function WithoutNode(s: seq<Entry>, node: Node): (r: seq<Entry>)
    ensures |r| <= |s|
    ensures forall i :: 0 <= i < |r| ==> r[i] in s && r[i].key.node != node
    ensures forall e :: e in s && e.key.node != node ==> e in r
  {
    if s == [] then []
    else
      assert s == [s[0]] + s[1..];
      if s[0].key.node == node then WithoutNode(s[1..], node) else [s[0]] + WithoutNode(s[1..], node)
  }

  lemma {:induction false} WithoutNodeUnique(s: seq<Entry>, node: Node)
    requires UniqueKeys(s)
    ensures UniqueKeys(WithoutNode(s, node))
  {
    if s != [] {
      WithoutNodeUnique(s[1..], node);
      var r := WithoutNode(s[1..], node);
      forall i | 0 <= i < |r| ensures s[0].key != r[i].key {
        assert r[i] in s[1..];
        var j :| 0 <= j < |s[1..]| && s[1..][j] == r[i];
        assert s[j + 1] == r[i];
      }
    }
  }

  lemma TracksRemove(s: seq<Entry>, i: nat, log: seq<Event>, e: Event)
    requires Tracks(s, log) && i < |s|
    requires (e.WasCancelled? || e.Taken?) && e.key == s[i].key
    ensures Tracks(RemoveAt(s, i), log + [e])
  {
    var r, l := RemoveAt(s, i), log + [e];
    forall j | 0 <= j < |r| ensures Due(l, r[j].key) == Some(r[j].deadline) && r[j].key != s[i].key {
      assert r[j] == s[if j < i then j else j + 1];
      DueStep(log, e, r[j].key);
    }
    forall k: Key | Due(l, k).Some? ensures exists j :: At(r, j, k, Due(l, k).value) {
      DueStep(log, e, k);
      var j :| At(s, j, k, Due(log, k).value);
      assert At(r, if j < i then j else j - 1, k, Due(l, k).value);
    }
  }

  lemma TracksInsert(s: seq<Entry>, i: nat, key: Key, d: Time, log: seq<Event>)
    requires Tracks(s, log) && i <= |s|
    requires forall j :: 0 <= j < |s| ==> s[j].key != key
    ensures Tracks(InsertAt(s, i, Entry(key, d)), log + [WasSet(key, d)])
  {
    var e := WasSet(key, d);
    var r, l := InsertAt(s, i, Entry(key, d)), log + [e];
    assert forall j :: 0 <= j < |r| ==> r[j] == if j < i then s[j] else if j == i then Entry(key, d) else s[j - 1];
    forall j | 0 <= j < |r| ensures Due(l, r[j].key) == Some(r[j].deadline) {
      DueStep(log, e, r[j].key);
    }
    forall k: Key | Due(l, k).Some? ensures exists j :: At(r, j, k, Due(l, k).value) {
      DueStep(log, e, k);
      if k == key {
        assert At(r, i, k, d);
      } else {
        var j :| At(s, j, k, Due(log, k).value);
        assert At(r, if j < i then j else j + 1, k, Due(l, k).value);
      }
    }
  }

  lemma TracksDelete(s: seq<Entry>, node: Node, log: seq<Event>)
    requires Tracks(s, log)
    ensures Tracks(WithoutNode(s, node), log + [NodeDeleted(node)])
  {
    var e := NodeDeleted(node);
    var r, l := WithoutNode(s, node), log + [e];
    WithoutNodeUnique(s, node);
    forall j | 0 <= j < |r| ensures Due(l, r[j].key) == Some(r[j].deadline) {
      DueStep(log, e, r[j].key);
      var i :| 0 <= i < |s| && s[i] == r[j];
    }
    forall k: Key | Due(l, k).Some? ensures exists j :: At(r, j, k, Due(l, k).value) {
      DueStep(log, e, k);
      var i :| At(s, i, k, Due(log, k).value);
      assert s[i] in s && s[i] in r;
      var j :| 0 <= j < |r| && r[j] == s[i];
      assert At(r, j, k, Due(l, k).value);
    }
  }

  lemma TracksClear(log: seq<Event>)
    ensures Tracks([], log + [Cleared])
  {
    forall k: Key ensures Due(log + [Cleared], k).None? { DueStep(log, Cleared, k); }
  }

  // -- The watch timer --------------------------------------------------------------------

  /** The nearest deadline strictly after `now`. */
  function Next(s: seq<Entry>, now: Time): (d: Option<Time>)
    ensures d.Some? ==> d.value > now && exists i :: 0 <= i < |s| && s[i].deadline == d.value
    ensures d.Some? ==> forall i :: 0 <= i < |s| ==> s[i].deadline <= now || d.value <= s[i].deadline
    ensures d.None? <==> forall i :: 0 <= i < |s| ==> s[i].deadline <= now
  {
    if s == [] then None
    else
      var last := s[|s| - 1].deadline;
      var d := Next(s[..|s| - 1], now);
      if last > now && (d.None? || last < d.value) then Some(last) else d
  }

  /** No deadline lies ahead if and only if everything that is due has passed. */
  lemma AllPassedIff(s: seq<Entry>, log: seq<Event>, now: Time)
    requires Tracks(s, log)
    ensures Next(s, now).None? <==> forall k: Key :: Due(log, k).Some? ==> Due(log, k).value <= now
  {
    if Next(s, now).None? {
      forall k: Key | Due(log, k).Some? ensures Due(log, k).value <= now {
        var i :| At(s, i, k, Due(log, k).value);
        assert s[i].deadline <= now;
      }
    } else {
      var i :| 0 <= i < |s| && s[i].deadline > now;
      var k := s[i].key;
      assert Due(log, k).Some? && Due(log, k).value > now;
    }
  }

  /** An empty list means that nothing is due. */
  lemma NothingDueIff(s: seq<Entry>, log: seq<Event>)
    requires Tracks(s, log)
    ensures s == [] <==> forall k: Key :: Due(log, k).None?
  {
    if s != [] { assert Due(log, s[0].key) == Some(s[0].deadline); }
  }

  class Timeouts {
    /** The multimap, in iteration order. */
    var entries: seq<Entry>
    /** The deadline of the watch timer, when it is armed. */
    var watchTimer: Option<Time>
    /** The timer handler is between two callbacks. */
    var handlerRunning: bool
    var clock: Time
    ghost var log: seq<Event>

    /** What every step keeps: the list is exactly what is due, and no callback was ever taken
        unlawfully. */
    ghost predicate Valid()
      reads this
    {
      Tracks(entries, log) && Lawful(log)
    }

    /** Somebody will look at the list again. */
    predicate Watched()
      reads this
    {
      entries != [] ==> watchTimer.Some? || handlerRunning
    }

    constructor ()
      ensures Valid() && Watched() && entries == [] && log == [] && clock == 0 && watchTimer.None? && !handlerRunning
    {
      entries, watchTimer, handlerRunning, clock, log := [], None, false, 0, [];
    }

    /** `attribute_timeout_restart_watch_timer`: the loop keeps the nearest future deadline. */
    method RestartWatchTimer()
      modifies this`watchTimer
      ensures watchTimer == var d := Next(entries, clock); if d.Some? then d else old(watchTimer)
    {
      var next: Time := 0;
      for i := 0 to |entries|
        invariant watchTimer == old(watchTimer)
        invariant Next(entries[..i], clock) == if next == 0 then None else Some(next)
      {
        assert entries[..i + 1][..i] == entries[..i];
        var timeout := entries[i].deadline;
        if timeout > clock && (next == 0 || timeout < next) {
          next := timeout;
        }
      }
      assert entries[..|entries|] == entries;
      if next != 0 {
        watchTimer := Some(next);
      }
    }

    /** `attribute_timeout_cancel_callback_safe` */
    method CancelLocked(key: Key) returns (found: bool)
      requires Tracks(entries, log) && Lawful(log)
      modifies this`entries, this`log
      ensures Tracks(entries, log) && Lawful(log)
      ensures found <==> old(Due(log, key)).Some?
      ensures log == if found then old(log) + [WasCancelled(key)] else old(log)
      ensures !found ==> entries == old(entries)
      ensures |entries| <= |old(entries)| && forall i :: 0 <= i < |entries| ==> entries[i].key != key
    {
      for i := 0 to |entries|
        invariant entries == old(entries) && log == old(log)
        invariant forall j :: 0 <= j < i ==> entries[j].key != key
      {
        if entries[i].key == key {
          TracksRemove(entries, i, log, WasCancelled(key));
          LawfulStep(log, WasCancelled(key));
          entries := RemoveAt(entries, i);
          log := log + [WasCancelled(key)];
          return true;
        }
      }
      found := false;
    }

    /** `attribute_timeout_set_callback`. A zero duration calls back at once and starts nothing;
        otherwise the pair is replaced and becomes due after the duration. The duration counts from a clock
        reading `since` ago, before the list was locked; the timer is restarted from a reading now. The list is
        then watched by nobody if and only if the new deadline and all others have passed, no timer is armed and
        no handler is running. */
    method SetCallback(node: Node, duration: Time, callback: Callback, since: Time) returns (ok: bool, immediate: bool)
      requires Valid() && since <= clock
      modifies this`entries, this`log, this`watchTimer
      ensures Valid()
      ensures ok <==> callback != NO_CALLBACK && node != INVALID_NODE
      ensures immediate <==> ok && duration == 0
      ensures ok && duration > 0 ==> Due(log, Key(node, callback)) == Some(clock - since + duration)
      ensures ok && duration > 0 ==> watchTimer == var d := Next(entries, clock); if d.Some? then d else old(watchTimer)
      ensures !ok || duration == 0 ==> entries == old(entries) && log == old(log) && watchTimer == old(watchTimer)
      ensures forall k: Key :: k != Key(node, callback) ==> Due(log, k) == old(Due(log, k))
      ensures ok && duration > 0 ==>
                (!Watched() <==>
                 duration <= since && old(watchTimer).None? && !handlerRunning &&
                 forall k: Key :: k != Key(node, callback) && old(Due(log, k)).Some? ==>
                     old(Due(log, k)).value <= clock)
    {
      hide Tracks, Lawful;
      if callback == NO_CALLBACK || node == INVALID_NODE { return false, false; }
      if duration == 0 { return true, true; }
      var key := Key(node, callback);
      forall k: Key ensures k != key ==> Due(log + [WasCancelled(key)], k) == Due(log, k) {
        DueStep(log, WasCancelled(key), k);
      }
      var _ := CancelLocked(key);
      hide Due;
      Start(key, clock - since + duration);
      AllPassedIff(entries, log, clock);
      ok, immediate := true, false;
    }

    /** The new entry goes behind the others of its node, and the timer is restarted. */
    method Start(key: Key, deadline: Time)
      requires Tracks(entries, log) && Lawful(log) && forall i :: 0 <= i < |entries| ==> entries[i].key != key
      modifies this`entries, this`log, this`watchTimer
      ensures Tracks(entries, log) && Lawful(log) && log == old(log) + [WasSet(key, deadline)] && entries != []
      ensures watchTimer == var d := Next(entries, clock); if d.Some? then d else old(watchTimer)
      ensures forall k: Key :: Due(log, k) == if k == key then Some(deadline) else old(Due(log, k))
    {
      hide Tracks, Lawful;
      var i := UpperBound(entries, key.node);
      TracksInsert(entries, i, key, deadline, log);
      LawfulStep(log, WasSet(key, deadline));
      forall k: Key ensures Due(log + [WasSet(key, deadline)], k) == if k == key then Some(deadline) else Due(log, k) {
        DueStep(log, WasSet(key, deadline), k);
      }
      entries := InsertAt(entries, i, Entry(key, deadline));
      log := log + [WasSet(key, deadline)];
      assert entries[i].deadline == deadline;
      RestartWatchTimer();
    }

    /** `attribute_timeout_is_callback_active` answers what the history says. */
    method IsActive(node: Node, callback: Callback) returns (active: bool)
      requires Valid()
      ensures active <==> Due(log, Key(node, callback)).Some?
    {
      var key := Key(node, callback);
      for i := 0 to |entries|
        invariant forall j :: 0 <= j < i ==> entries[j].key != key
      {
        if entries[i].key == key { return true; }
      }
      active := false;
    }

    /** `attribute_timeout_cancel_callback` */
    method Cancel(node: Node, callback: Callback) returns (found: bool)
      requires Valid()
      modifies this`entries, this`log
      ensures Valid() && (old(Watched()) ==> Watched()) && Due(log, Key(node, callback)).None?
      ensures found <==> old(Due(log, Key(node, callback))).Some?
    {
      found := CancelLocked(Key(node, callback));
      DueStep(old(log), WasCancelled(Key(node, callback)), Key(node, callback));
    }

    /** `on_attribute_node_deleted` */
    method OnNodeDeleted(node: Node)
      requires Valid()
      modifies this`entries, this`log, this`watchTimer
      ensures Valid() && (old(Watched()) ==> Watched()) && log == old(log) + [NodeDeleted(node)]
      ensures forall i :: 0 <= i < |entries| ==> entries[i].key.node != node
    {
      TracksDelete(entries, node, log);
      LawfulStep(log, NodeDeleted(node));
      var present := exists e :: e in entries && e.key.node == node;
      log := log + [NodeDeleted(node)];
      entries := WithoutNode(entries, node);
      if present {
        RestartWatchTimer();
      }
    }

    /** The timer thread starts `attribute_timeout_invoke_timeout_functions`. */
    method TimerFires()
      requires Valid() && !handlerRunning && watchTimer.Some? && watchTimer.value <= clock
      modifies this`watchTimer, this`handlerRunning
      ensures Valid() && Watched() && handlerRunning && watchTimer.None?
    {
      watchTimer, handlerRunning := None, true;
    }

    /** One pass of the handler's loop under the list lock: take one expired entry, or restart
        the timer and stop. The restart reads the clock again, `delay` later. The remaining entries are
        lost if and only if there are some, the clock passed all of them between the two readings, and
        no set armed the timer while the handler was running. */
    method HandlerPass(delay: Time) returns (taken: Option<Key>)
      requires Valid() && handlerRunning
      modifies this`entries, this`log, this`watchTimer, this`handlerRunning, this`clock
      ensures Valid()
      ensures taken.Some? <==> exists i :: 0 <= i < |old(entries)| && old(entries)[i].deadline <= old(clock)
      ensures taken.Some? ==>
                old(Due(log, taken.value)).Some? && old(Due(log, taken.value)).value <= clock &&
                Due(log, taken.value).None? && handlerRunning && watchTimer == old(watchTimer) && clock == old(clock)
      ensures taken.None? ==>
              entries == old(entries) && log == old(log) && !handlerRunning &&
              clock == old(clock) + delay
      ensures forall k: Key :: taken != Some(k) ==> Due(log, k) == old(Due(log, k))
      ensures !Watched() <==>
              old(entries) != [] && old(watchTimer).None? &&
              forall i :: 0 <= i < |old(entries)| ==> old(clock) < old(entries)[i].deadline <= old(clock) + delay
      ensures delay == 0 ==> Watched()
    {
      for i := 0 to |entries|
        invariant entries == old(entries) && log == old(log) && watchTimer == old(watchTimer) && handlerRunning &&
                  clock == old(clock)
        invariant forall j :: 0 <= j < i ==> entries[j].deadline > clock
      {
        if entries[i].deadline <= clock {
          var key := entries[i].key;
          TracksRemove(entries, i, log, Taken(key, clock));
          LawfulStep(log, Taken(key, clock));
          forall k: Key ensures Due(log + [Taken(key, clock)], k) == if k == key then None else Due(log, k) {
            DueStep(log, Taken(key, clock), k);
          }
          entries := RemoveAt(entries, i);
          log := log + [Taken(key, clock)];
          return Some(key);
        }
      }
      clock := clock + delay;
      RestartWatchTimer();
      handlerRunning := false;
      taken := None;
      assert entries != [] ==> entries[0].deadline > old(clock);
    }

    /** The step leaves a watched list to nobody: a first set that is late, or a last pass of the handler after
        which the clock has passed all the rest. */
    ghost predicate Loses(step: Step)
      reads this
    {
      match step
      case DoSet(node, duration, callback, since) =>
        callback != NO_CALLBACK && node != INVALID_NODE && 0 < duration <= since <= clock &&
        entries == [] && watchTimer.None? && !handlerRunning
      case DoPass(delay) =>
        handlerRunning && entries != [] && watchTimer.None? &&
        forall i :: 0 <= i < |entries| ==> clock < entries[i].deadline <= clock + delay
      case _ => false
    }

    /** One step; a step that is not possible does nothing. A watched list stays watched if and only if the step
        does not lose it. */
    method Perform(step: Step)
      requires Valid()
      modifies this
      ensures Valid()
      ensures old(Watched()) ==> (Watched() <==> !old(Loses(step)))
    {
      hide Tracks, Lawful, Due;
      match step {
        case DoSet(node, duration, callback, since) =>
          if since <= clock { SetStep(node, duration, callback, since); }
        case DoCancel(node, callback) =>
          var found := Cancel(node, callback);
        case DoDelete(node) => OnNodeDeleted(node);
        case DoFire =>
          if !handlerRunning && watchTimer.Some? && watchTimer.value <= clock { TimerFires(); }
        case DoPass(delay) =>
          if handlerRunning { var taken := HandlerPass(delay); }
        case DoTick(elapsed) => Tick(elapsed);
        case DoInit => Init();
      }
    }

    method SetStep(node: Node, duration: Time, callback: Callback, since: Time)
      requires Valid() && since <= clock
      modifies this
      ensures Valid()
      ensures old(Watched()) ==> (Watched() <==> !old(Loses(DoSet(node, duration, callback, since))))
    {
      hide Tracks, Lawful, Due;
      NothingDueIff(entries, log);
      var ok, immediate := SetCallback(node, duration, callback, since);
    }

    method Tick(elapsed: Time)
      requires Valid()
      modifies this`clock
      ensures Valid() && (old(Watched()) ==> Watched()) && clock == old(clock) + elapsed
    {
      clock := clock + elapsed;
    }

    /** `attribute_timeouts_init` empties the list and leaves the timer alone. */
    method Init()
      requires Valid()
      modifies this`entries, this`log
      ensures Valid() && Watched() && entries == []
    {
      TracksClear(log);
      LawfulStep(log, Cleared);
      entries, log := [], log + [Cleared];
    }
  }

  // -- Whole runs -------------------------------------------------------------------------

  datatype Step =
    | DoSet(node: Node, duration: Time, callback: Callback, since: Time)
    | DoCancel(node: Node, callback: Callback)
    | DoDelete(node: Node)
    | DoFire
    | DoPass(delay: Time)
    | DoTick(elapsed: Time)
    | DoInit

  /** The second clock reading of the step is in time: the same as the first one in the handler, and
      before the new deadline in a set. */
  predicate InTime(step: Step) {
    match step
    case DoSet(_, duration, _, since) => duration > 0 ==> since < duration
    case DoPass(delay) => delay == 0
    case _ => true
  }

  /** Any interleaving of callers, deletions, the timer thread and time, starting from nothing. If no step
      loses the list, it is watched; and only a step whose second clock reading is not in time does. */
  method RunAll(steps: seq<Step>) returns (t: Timeouts, ghost lost: bool)
    ensures fresh(t) && t.Valid()
    ensures !lost ==> t.Watched()
    ensures lost ==> exists i :: 0 <= i < |steps| && !InTime(steps[i])
  {
    hide Tracks, Lawful;
    t := new Timeouts();
    lost := false;
    for i := 0 to |steps|
      invariant fresh(t) && t.Valid() && (!lost ==> t.Watched())
      invariant lost ==> exists j :: 0 <= j < i && !InTime(steps[j])
    {
      lost := lost || t.Loses(steps[i]);
      LosesLate(t, steps[i]);
      t.Perform(steps[i]);
    }
  }

  lemma LosesLate(t: Timeouts, step: Step)
    ensures t.Loses(step) ==> !InTime(step)
  {
    if t.Loses(step) && step.DoPass? { assert t.clock < t.entries[0].deadline <= t.clock + step.delay; }
  }

  /** A run that loses a timeout in a set: the clock is read at 0, the timeout of 1 starts at 1, and no deadline
      lies ahead of the timer. */
  method LateSet() returns (t: Timeouts)
    ensures t.Valid() && t.entries != [] && t.watchTimer.None? && !t.handlerRunning
  {
    hide Tracks, Lawful;
    t := new Timeouts();
    t.Tick(1);
    assert forall k: Key :: Due([], k) == None;
    var ok, immediate := t.SetCallback(5, 1, 1, 1);
  }

  /** A run that loses a timeout: two timeouts, due at 10 and at 11; the timer fires at 10 and the first
      one is taken; the handler finds nothing else expired at 10 and restarts the timer at 11, when no
      deadline lies ahead. Nobody will look at the second one again. */
  method LostTimeout() returns (t: Timeouts)
    ensures t.Valid() && t.entries != [] && t.watchTimer.None? && !t.handlerRunning
  {
    hide Tracks, Lawful, Due;
    t := TwoTimeouts();
    t.Tick(10);
    t.TimerFires();
    var taken := t.HandlerPass(0);
    OneDue(t.entries, t.log, Key(6, 2), 11);
    taken := t.HandlerPass(1);
  }

  /** The timeouts due at 10 and at 11, set at 0. */
  method TwoTimeouts() returns (t: Timeouts)
    ensures fresh(t) && t.Valid() && t.clock == 0 && !t.handlerRunning && t.watchTimer == Some(10)
    ensures forall k: Key :: Due(t.log, k) == if k == Key(5, 1) then Some(10) else if k == Key(6, 2) then Some(11)
            else None
    ensures exists i :: 0 <= i < |t.entries| && t.entries[i].deadline <= 10
  {
    hide Tracks, Lawful;
    t := new Timeouts();
    assert forall k: Key :: Due([], k) == None;
    hide Due;
    var ok, immediate := t.SetCallback(5, 10, 1, 0);
    ok, immediate := t.SetCallback(6, 11, 2, 0);
    TwoDue(t.entries, t.log, Key(5, 1), 10, Key(6, 2), 11);
  }

  lemma TwoDue(s: seq<Entry>, log: seq<Event>, a: Key, d: Time, b: Key, e: Time)
    requires Tracks(s, log) && a != b && d < e && Due(log, a) == Some(d) && Due(log, b) == Some(e)
    requires forall k: Key :: k != a && k != b ==> Due(log, k).None?
    ensures forall i :: 0 <= i < |s| ==> s[i] == Entry(a, d) || s[i] == Entry(b, e)
    ensures exists i :: 0 <= i < |s| && s[i].deadline <= d
    ensures Next(s, 0).Some? && (d > 0 ==> Next(s, 0) == Some(d))
  {
    var i :| At(s, i, a, d);
    assert s[i].deadline == d;
    var j :| At(s, j, b, e);
    assert s[j].deadline == e;
  }

  lemma OneDue(s: seq<Entry>, log: seq<Event>, b: Key, e: Time)
    requires Tracks(s, log) && Due(log, b) == Some(e) && forall k: Key :: k != b ==> Due(log, k).None?
    ensures s != [] && forall i :: 0 <= i < |s| ==> s[i] == Entry(b, e)
  {
    var j :| At(s, j, b, e);
  }
}
