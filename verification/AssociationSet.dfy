/** Associations and the ordered set the association toolbox keeps them in.

    The container of the source is a `std::set` with a comparator; it is modelled by its
    iteration order, a sequence that is strictly increasing in the comparator's key. Two such
    sequences with the same members are equal (`SameMembersEqual`), so sequence equality is
    set equality. */
module AssociationSet {
  import opened Common

  type NodeNumber = x: int | 0 <= x < 0x10000

  datatype Kind = NodeId | Endpoint

  datatype Association = Association(kind: Kind, node: NodeNumber, endpoint: Byte)

  const MAX_NODES: int := 232

  predicate IsValid(a: Association) {
    a.node != 0 && a.node <= MAX_NODES
  }

  /** What a byte stream can carry: a valid node, and no endpoint on a NodeID association. */
  predicate IsCanonical(a: Association) {
    IsValid(a) && (a.kind.NodeId? ==> a.endpoint == 0)
  }

  /** The integer the comparator orders associations by. */
  function Key(a: Association): (k: nat)
    ensures a.kind.NodeId? <==> k < 0x1000000
  {
    (if a.kind.NodeId? then 0 else 0x1000000) + a.node * 0x100 + a.endpoint
  }

  /** The comparator never confuses two associations. */
  lemma KeyInjective(a: Association, b: Association)
    ensures Key(a) == Key(b) <==> a == b
  {
    if Key(a) == Key(b) {
      assert a.kind == b.kind;
      assert a.node * 0x100 + a.endpoint == b.node * 0x100 + b.endpoint;
      assert a.node == b.node;
    }
  }

  ghost predicate Sorted(s: seq<Association>) {
    forall i, j :: 0 <= i < j < |s| ==> Key(s[i]) < Key(s[j])
  }

  lemma SortedNoDuplicates(s: seq<Association>, i: nat, j: nat)
    requires Sorted(s) && i < |s| && j < |s| && s[i] == s[j]
    ensures i == j
  {
  }

  /** A strictly sorted sequence is determined by its members. */
  lemma {:induction false} SameMembersEqual(s: seq<Association>, t: seq<Association>)
    requires Sorted(s) && Sorted(t)
    requires forall a :: a in s <==> a in t
    ensures s == t
  {
    if s == [] {
      assert forall i :: 0 <= i < |t| ==> t[i] in t;
    } else {
      assert s[0] in t && t != [];
      assert t[0] in s;
      KeyInjective(s[0], t[0]);
      forall a ensures a in s[1..] <==> a in t[1..] {
        assert a in s[1..] <==> a in s && a != s[0] by { MembersOfTail(s, a); }
        assert a in t[1..] <==> a in t && a != t[0] by { MembersOfTail(t, a); }
      }
      SameMembersEqual(s[1..], t[1..]);
      assert s == [s[0]] + s[1..] && t == [t[0]] + t[1..];
    }
  }

  lemma MembersOfTail(s: seq<Association>, a: Association)
    requires Sorted(s) && s != []
    ensures a in s[1..] <==> a in s && a != s[0]
  {
    assert s == [s[0]] + s[1..];
    if a in s[1..] {
      var i :| 0 <= i < |s[1..]| && s[1..][i] == a;
      assert s[i + 1] == a;
    }
  }

  /** `std::set::insert` */
  function Insert(s: seq<Association>, a: Association): (r: seq<Association>)
    requires Sorted(s)
    ensures Sorted(r)
    ensures forall x :: x in r <==> x in s || x == a
    ensures |r| == if a in s then |s| else |s| + 1
  {
    if s == [] then [a]
    else if Key(a) < Key(s[0]) then
      assert a !in s;
      [a] + s
    else
      KeyInjective(a, s[0]);
      MembersOfTail(s, a);
      if a == s[0] then s
      else
        assert s == [s[0]] + s[1..];
        var t := Insert(s[1..], a);
        assert forall x :: x in t ==> Key(s[0]) < Key(x);
        [s[0]] + t
  }

  /** `std::set::erase` of one element, which may be absent. */
  function Erase(s: seq<Association>, a: Association): (r: seq<Association>)
    requires Sorted(s)
    ensures Sorted(r)
    ensures forall x :: x in r <==> x in s && x != a
    ensures |r| == if a in s then |s| - 1 else |s|
  {
    if s == [] then []
    else
      EraseStep(s, a);
      if a == s[0] then s[1..] else
        var t := Erase(s[1..], a);
        assert forall x :: x in t ==> Key(s[0]) < Key(x);
        [s[0]] + t
  }

  lemma EraseStep(s: seq<Association>, a: Association)
    requires Sorted(s) && s != []
    ensures s == [s[0]] + s[1..] && s[0] !in s[1..]
    ensures forall x :: x in s[1..] <==> x in s && x != s[0]
  {
    forall x ensures x in s[1..] <==> x in s && x != s[0] { MembersOfTail(s, x); }
  }

  /** The number of associations a container holds is monotone in its members. */
  lemma {:induction false} SizeMonotone(s: seq<Association>, t: seq<Association>)
    requires Sorted(s) && Sorted(t)
    requires forall a :: a in s ==> a in t
    ensures |s| <= |t|
  {
    if s != [] {
      var a := s[0];
      MembersOfTail(s, a);
      var u := Erase(t, a);
      forall x | x in s[1..] ensures x in u { MembersOfTail(s, x); }
      SizeMonotone(s[1..], u);
    }
  }
}
