/** Editing the association groups kept in the attribute store. */
module AssociationGroups {
  import opened Common
  import opened AssociationSet
  import opened AssociationCodec

  /** The group content attribute: its two values, and the capacity of the group. */
  datatype Group = Group(desired: seq<Byte>, reported: seq<Byte>, capacity: nat) {
    /** The desired value if there is one, else the reported value. */
    function Bytes(): seq<Byte> {
      if desired != [] then desired else reported
    }

    function Members(): (s: seq<Association>)
      ensures Sorted(s)
    {
      Decoded(Bytes())
    }
  }

  datatype Edit =
    | Add(association: Association)
    | ForceAdd(association: Association)
    | Remove(association: Association)
    | RemoveNode(node: NodeNumber)
    | RemoveAll

  datatype Outcome = Done(members: seq<Association>) | Refused

  // -- The edits on member sets -----------------------------------------------------------

  function WithoutNode(s: seq<Association>, node: NodeNumber): (r: seq<Association>)
    requires Sorted(s)
    ensures Sorted(r) && |r| <= |s|
    ensures forall a :: a in r <==> a in s && a.node != node
  {
    if s == [] then []
    else
      EraseStep(s, s[0]);
      var r := WithoutNode(s[1..], node);
      if s[0].node == node then r
      else
        assert forall x :: x in r ==> Key(s[0]) < Key(x);
        [s[0]] + r
  }

  /** The first member in set order other than `a`, if any. */
  function Victim(s: seq<Association>, a: Association): (v: seq<Association>)
    ensures |v| <= 1
    ensures v != [] ==> v[0] in s && v[0] != a
    ensures v == [] ==> forall x :: x in s ==> x == a
  {
    if s == [] then [] else if s[0] != a then [s[0]]
    else assert s == [s[0]] + s[1..]; Victim(s[1..], a)
  }

  function Edited(s: seq<Association>, capacity: nat, e: Edit): (o: Outcome)
    requires Sorted(s)
    ensures o.Done? ==> Sorted(o.members)
  {
    match e
    case Add(a) =>
      var t := Insert(s, a);
      if capacity < |t| then Refused else Done(t)
    case ForceAdd(a) =>
      var t := Insert(s, a);
      if capacity >= |t| then Done(t)
      else
        var v := Victim(t, a);
        if v == [] then Refused else Done(Erase(t, v[0]))
    case Remove(a) => Done(Erase(s, a))
    case RemoveNode(node) => Done(WithoutNode(s, node))
    case RemoveAll => Done([])
  }

  predicate ValidEdit(e: Edit) {
    (e.Add? || e.ForceAdd?) ==> IsCanonical(e.association)
  }

  /** No edit takes a group past the larger of its capacity and its previous size. */
  lemma EditedSize(s: seq<Association>, capacity: nat, e: Edit)
    requires Sorted(s) && Edited(s, capacity, e).Done?
    ensures |Edited(s, capacity, e).members| <= capacity || |Edited(s, capacity, e).members| <= |s|
  {
  }

  lemma EditedCanonical(s: seq<Association>, capacity: nat, e: Edit)
    requires Sorted(s) && AllCanonical(s) && ValidEdit(e) && Edited(s, capacity, e).Done?
    ensures AllCanonical(Edited(s, capacity, e).members)
  {
    var r := Edited(s, capacity, e).members;
    forall i | 0 <= i < |r| ensures IsCanonical(r[i]) {
      assert r[i] in r;
      assert r[i] in s || ((e.Add? || e.ForceAdd?) && r[i] == e.association);
    }
  }

  lemma OnlyOne(t: seq<Association>, a: Association)
    requires Sorted(t) && t != [] && forall x :: x in t ==> x == a
    ensures |t| == 1
  {
    SizeMonotone(t, [a]);
  }

  ghost predicate KeepsAllBut(s: seq<Association>, v: Association, r: seq<Association>) {
    forall x :: x in s && x != v ==> x in r
  }

  /** A forced add that succeeds keeps the new entry and drops at most one other; it is refused
      exactly when the capacity is zero and the group holds nothing else. */
  lemma ForceAddKeepsNewEntry(s: seq<Association>, capacity: nat, a: Association)
    requires Sorted(s)
    ensures var o := Edited(s, capacity, ForceAdd(a));
            (o.Refused? <==> capacity == 0 && forall x :: x in s ==> x == a) &&
            (o.Done? ==>
               a in o.members &&
               (forall x :: x in o.members ==> x in s || x == a) &&
               exists v :: KeepsAllBut(s, v, o.members))
  {
    var o, t := Edited(s, capacity, ForceAdd(a)), Insert(s, a);
    var v := Victim(t, a);
    assert a in t && |t| >= 1;
    if v == [] { OnlyOne(t, a); }
    if o.Done? {
      assert KeepsAllBut(s, if capacity >= |t| then a else v[0], o.members);
    }
  }

  // -- Writing the result back ------------------------------------------------------------

  const VALUE_SIZE_MODULUS: nat := 256

  /** The store takes the length of a value as an 8-bit number, so a longer stream is cut to its
      length modulo 256. */
  function Stored(b: seq<Byte>): (r: seq<Byte>) {
    b[..|b| % VALUE_SIZE_MODULUS]
  }

  /** One edit of the group content: a refused edit leaves the group as it was. */
  function Apply(g: Group, e: Edit): (g': Group)
    ensures g'.capacity == g.capacity && g'.reported == g.reported
  {
    match Edited(g.Members(), g.capacity, e)
    case Refused => g
    case Done(members) => g.(desired := Stored(Layout(members)))
  }

  predicate Fits(g: Group, e: Edit) {
    var o := Edited(g.Members(), g.capacity, e);
    o.Done? ==> |Layout(o.members)| < VALUE_SIZE_MODULUS
  }

  lemma StoredSmall(b: seq<Byte>)
    requires |b| < VALUE_SIZE_MODULUS
    ensures Stored(b) == b
  {
  }

  lemma LayoutNonEmpty(s: seq<Association>)
    ensures Layout(s) != []
  {
  }

  lemma StoredExact(s: seq<Association>)
    requires Sorted(s) && AllCanonical(s) && |Layout(s)| < VALUE_SIZE_MODULUS
    ensures Stored(Layout(s)) != [] && Decoded(Stored(Layout(s))) == s
  {
    LayoutNonEmpty(s);
    StoredSmall(Layout(s));
    RoundTrip(s);
  }

  /** After an edit that fits the store, the group is exactly the edited set. */
  lemma ApplyExact(g: Group, e: Edit)
    requires ValidEdit(e) && Fits(g, e)
    ensures Apply(g, e).Members() ==
            (var o := Edited(g.Members(), g.capacity, e); if o.Done? then o.members else g.Members())
  {
    var members := g.Members();
    DecodedCanonical(g.Bytes());
    var o := Edited(members, g.capacity, e);
    if o.Done? {
      EditedCanonical(members, g.capacity, e);
      StoredExact(o.members);
      assert Apply(g, e).Bytes() == Stored(Layout(o.members));
    }
  }

  /** A non-empty result is written back intact if and only if its stream is shorter than 256 bytes. */
  lemma StoredIntactIffFits(s: seq<Association>)
    requires Sorted(s) && AllCanonical(s) && s != []
    ensures Decoded(Stored(Layout(s))) == s <==> |Layout(s)| < VALUE_SIZE_MODULUS
  {
    CutLayout(s, |Layout(s)| % VALUE_SIZE_MODULUS);
  }

  // -- Whole runs -------------------------------------------------------------------------

  function Run(g: Group, edits: seq<Edit>): (g': Group)
    decreases |edits|
  {
    if edits == [] then g else Run(Apply(g, edits[0]), edits[1..])
  }

  predicate RunFits(g: Group, edits: seq<Edit>)
    decreases |edits|
  {
    edits == [] || (ValidEdit(edits[0]) && Fits(g, edits[0]) && RunFits(Apply(g, edits[0]), edits[1..]))
  }

  /** Over any run of edits the group never exceeds the larger of its capacity and its initial size. */
  lemma {:induction false} RunBounded(g: Group, edits: seq<Edit>)
    requires RunFits(g, edits)
    ensures |Run(g, edits).Members()| <= Max(g.capacity, |g.Members()|)
    decreases |edits|
  {
    if edits != [] {
      var h := Apply(g, edits[0]);
      ApplyExact(g, edits[0]);
      if Edited(g.Members(), g.capacity, edits[0]).Done? {
        EditedSize(g.Members(), g.capacity, edits[0]);
      }
      RunBounded(h, edits[1..]);
    }
  }

  /** The store keeps nothing of a stream whose length is a multiple of 256, and the group is then read
      from the reported value. */
  predicate FallsBack(g: Group, e: Edit) {
    var o := Edited(g.Members(), g.capacity, e);
    o.Done? && |Layout(o.members)| % VALUE_SIZE_MODULUS == 0
  }

  /** One edit, whatever the store cuts off: the group falls back to the reported one, or keeps within
      its capacity or its size. */
  lemma AfterEdit(g: Group, e: Edit)
    requires ValidEdit(e)
    ensures if FallsBack(g, e) then Apply(g, e).Members() == Decoded(g.reported)
            else |Apply(g, e).Members()| <= Max(g.capacity, |g.Members()|)
  {
    hide Edited, Layout, Decoded;
    var members := g.Members();
    DecodedCanonical(g.Bytes());
    var o := Edited(members, g.capacity, e);
    if o.Done? {
      EditedSize(members, g.capacity, e);
      EditedCanonical(members, g.capacity, e);
      hide AllCanonical, Sorted;
      CutLayoutShrinks(o.members, |Layout(o.members)| % VALUE_SIZE_MODULUS);
    }
  }

  lemma ApplyBounded(g: Group, e: Edit)
    requires ValidEdit(e)
    ensures |Apply(g, e).Members()| <= Max(Max(g.capacity, |g.Members()|), |Decoded(g.reported)|)
  {
    hide FallsBack, Apply, Decoded;
    AfterEdit(g, e);
  }

  /** An edit takes the group past the larger of its capacity and its size if and only if it falls back
      to a reported group that is past it. */
  lemma ApplyBoundedIff(g: Group, e: Edit)
    requires ValidEdit(e)
    ensures |Apply(g, e).Members()| > Max(g.capacity, |g.Members()|) <==>
            FallsBack(g, e) && |Decoded(g.reported)| > Max(g.capacity, |g.Members()|)
  {
    hide FallsBack, Apply, Decoded;
    AfterEdit(g, e);
  }

  function ManyPairs(): seq<Association> { seq(127, i requires 0 <= i < 127 => Association(Endpoint, 1, i)) }

  function ManyNodes(): seq<Association> { seq(200, i requires 0 <= i < 200 => Association(NodeId, i + 1, 0)) }

  lemma ManyAreCanonical()
    ensures Sorted(ManyPairs()) && AllCanonical(ManyPairs()) && Decoded(Layout(ManyPairs())) == ManyPairs()
    ensures Sorted(ManyNodes()) && AllCanonical(ManyNodes()) && Decoded(Layout(ManyNodes())) == ManyNodes()
  {
    RoundTrip(ManyPairs());
    RoundTrip(ManyNodes());
  }

  lemma OneMoreSorted()
    ensures Sorted(ManyPairs()) && Sorted([Association(NodeId, 1, 0)] + ManyPairs())
    ensures Nodes([Association(NodeId, 1, 0)] + ManyPairs()) == 1
  {
    var t := [Association(NodeId, 1, 0)] + ManyPairs();
    assert forall i :: 1 <= i < |t| ==> t[i] == Association(Endpoint, 1, i - 1);
    assert Nodes(t[1..]) == 0;
  }

  lemma OneMoreIs256Bytes()
    ensures var a := Association(NodeId, 1, 0);
            Sorted(ManyPairs()) && Insert(ManyPairs(), a) == [a] + ManyPairs() && |Layout([a] + ManyPairs())| == 256
  {
    var a := Association(NodeId, 1, 0);
    OneMoreSorted();
    hide Nodes, Sorted, Layout, Insert;
    assert |ManyPairs()| == 127;
    hide ManyPairs;
    SameMembersEqual(Insert(ManyPairs(), a), [a] + ManyPairs());
  }

  /** A concrete instance: 127 pairs and room for one more entry; adding it gives a stream of 256 bytes,
      and the group becomes the 200 nodes of the reported value. */
  lemma FallBackOverflows()
    ensures var g := Group(Layout(ManyPairs()), Layout(ManyNodes()), 128);
            |g.Members()| == 127 && |Apply(g, Add(Association(NodeId, 1, 0))).Members()| == 200
  {
    ManyAreCanonical();
    OneMoreIs256Bytes();
    LayoutNonEmpty(ManyPairs());
    hide Decoded, Layout, Insert;
    var g := Group(Layout(ManyPairs()), Layout(ManyNodes()), 128);
    assert g.Members() == ManyPairs();
    var h := Apply(g, Add(Association(NodeId, 1, 0)));
    assert h.desired == [];
    assert h.Members() == ManyNodes();
  }

  /** Over any run of edits, even when streams are cut, the group never exceeds the largest of its
      capacity, its initial size and the size of the reported group. */
  lemma {:induction false} RunBoundedByReported(g: Group, edits: seq<Edit>)
    requires forall i :: 0 <= i < |edits| ==> ValidEdit(edits[i])
    ensures |Run(g, edits).Members()| <= Max(Max(g.capacity, |g.Members()|), |Decoded(g.reported)|)
    decreases |edits|
  {
    if edits != [] {
      ApplyBounded(g, edits[0]);
      RunBoundedByReported(Apply(g, edits[0]), edits[1..]);
    }
  }

  const SMALL_GROUP: nat := 127

  /** Every run fits the store when the capacity and the initial group are at most 127 entries. */
  lemma {:induction false} SmallGroupsFit(g: Group, edits: seq<Edit>)
    requires forall i :: 0 <= i < |edits| ==> ValidEdit(edits[i])
    requires Max(g.capacity, |g.Members()|) <= SMALL_GROUP
    ensures RunFits(g, edits)
    decreases |edits|
  {
    if edits != [] {
      var o := Edited(g.Members(), g.capacity, edits[0]);
      if o.Done? { EditedSize(g.Members(), g.capacity, edits[0]); }
      assert Fits(g, edits[0]);
      ApplyExact(g, edits[0]);
      SmallGroupsFit(Apply(g, edits[0]), edits[1..]);
    }
  }

  // -- The toolbox functions --------------------------------------------------------------

  /** `remove_node_id_from_association_set`: erase the first match and start again. */
  method RemoveNodeId(node: NodeNumber, s: seq<Association>) returns (r: seq<Association>)
    requires Sorted(s)
    ensures r == WithoutNode(s, node)
    decreases |s|
  {
    var i := 0;
    while i < |s| && s[i].node != node
      invariant 0 <= i <= |s|
      invariant forall j :: 0 <= j < i ==> s[j].node != node
    {
      i := i + 1;
    }
    if i == |s| {
      SameMembersEqual(s, WithoutNode(s, node));
      return s;
    }
    var t := Erase(s, s[i]);
    r := RemoveNodeId(node, t);
    SameMembersEqual(WithoutNode(s, node), WithoutNode(t, node));
  }

  /** The search for somebody to bump out of a full group: the first entry other than `a`. */
  method BumpOne(s: seq<Association>, a: Association) returns (r: seq<Association>, removed: bool)
    requires Sorted(s)
    ensures removed <==> Victim(s, a) != []
    ensures r == if removed then Erase(s, Victim(s, a)[0]) else s
  {
    var i := 0;
    while i < |s|
      invariant 0 <= i <= |s|
      invariant Victim(s, a) == Victim(s[i..], a)
    {
      if s[i] != a {
        return Erase(s, s[i]), true;
      }
      i := i + 1;
    }
    return s, false;
  }

  /** The attribute that holds a group, edited in place. */
  class GroupContent {
    /** False when the group content attribute does not exist: every edit then fails. */
    var present: bool
    var desired: seq<Byte>
    var reported: seq<Byte>
    var capacity: nat

    ghost function State(): Group
      reads this
    {
      Group(desired, reported, capacity)
    }

    constructor (desired: seq<Byte>, reported: seq<Byte>, capacity: nat)
      ensures State() == Group(desired, reported, capacity) && present
    {
      this.present, this.desired, this.reported, this.capacity := true, desired, reported, capacity;
    }

    method ReadMembers() returns (s: seq<Association>)
      ensures s == State().Members()
    {
      s := Decode(if desired != [] then desired else reported);
    }

    method WriteMembers(s: seq<Association>)
      requires Sorted(s)
      modifies this`desired
      ensures desired == Stored(Layout(s))
    {
      var bytes := Encode(s);
      desired := bytes[..|bytes| % VALUE_SIZE_MODULUS];
    }

    method AddDesired(a: Association) returns (ok: bool)
      modifies this`desired
      ensures State() == if present then Apply(old(State()), Add(a)) else old(State())
      ensures ok <==> present && Edited(old(State()).Members(), capacity, Add(a)).Done?
    {
      if !present { return false; }
      var associations := ReadMembers();
      associations := Insert(associations, a);
      if capacity < |associations| { return false; }
      WriteMembers(associations);
      ok := true;
    }

    method ForceAddDesired(a: Association) returns (ok: bool)
      modifies this`desired
      ensures State() == if present then Apply(old(State()), ForceAdd(a)) else old(State())
      ensures ok <==> present && Edited(old(State()).Members(), capacity, ForceAdd(a)).Done?
    {
      if !present { return false; }
      var associations := ReadMembers();
      associations := Insert(associations, a);
      if capacity < |associations| {
        var removed;
        associations, removed := BumpOne(associations, a);
        if !removed { return false; }
      }
      WriteMembers(associations);
      ok := true;
    }

    method RemoveDesired(a: Association) returns (ok: bool)
      modifies this`desired
      ensures State() == if present then Apply(old(State()), Remove(a)) else old(State())
      ensures ok <==> present
    {
      if !present { return false; }
      var associations := ReadMembers();
      WriteMembers(Erase(associations, a));
      ok := true;
    }

    method RemoveDesiredNode(node: NodeNumber)
      modifies this`desired
      ensures State() == if present then Apply(old(State()), RemoveNode(node)) else old(State())
    {
      hide Sorted, WithoutNode, Layout, Stored, Insert, Erase, Victim, Decoded;
      if !present { return; }
      var associations := ReadMembers();
      associations := RemoveNodeId(node, associations);
      WriteMembers(associations);
    }

    method RemoveAllDesired() returns (ok: bool)
      modifies this`desired
      ensures State() == if present then Apply(old(State()), RemoveAll) else old(State())
      ensures ok <==> present
    {
      if !present { return false; }
      WriteMembers([]);
      ok := true;
    }
  }

  // -- The loop over the groups of an endpoint --------------------------------------------

  /** The 8-bit group counter after `k` increments from 1. */
  function GroupCounter(k: nat): nat { (1 + k) % 256 }

  /** The loop over all groups, `for (uint8_t id = 1; id <= count; id++)`, is left if and only if
      the endpoint has at most 254 groups; it has then visited the groups 1 to `count` in order. */
  lemma GroupLoopEnds(count: nat)
    ensures (exists k: nat :: GroupCounter(k) > count) <==> count <= 254
    ensures count <= 254 ==>
              GroupCounter(count) > count && forall k: nat :: k < count ==> GroupCounter(k) == k + 1 <= count
  {
    if count <= 254 {
      assert GroupCounter(count) == count + 1;
    }
  }
}
