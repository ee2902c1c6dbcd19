/** The byte stream of an association group: NodeID associations first, one byte each, then a
    zero marker, then (NodeID, endpoint) pairs. */
module AssociationCodec {
  import opened Common
  import opened AssociationSet

  const MARKER: Byte := 0

  // -- What a stream means, by position ---------------------------------------------------

  /** The position of the first marker, or the length when there is none. */
  function MarkerAt(b: seq<Byte>): (m: nat)
    ensures m <= |b|
    ensures forall i :: 0 <= i < m ==> b[i] != MARKER
    ensures m < |b| ==> b[m] == MARKER
  {
    if b == [] || b[0] == MARKER then 0 else 1 + MarkerAt(b[1..])
  }

  lemma MarkerUnique(b: seq<Byte>, n: nat)
    requires n <= |b| && (forall i :: 0 <= i < n ==> b[i] != MARKER) && (n < |b| ==> b[n] == MARKER)
    ensures MarkerAt(b) == n
  {
  }

  /** After the marker at `m`, position `p` starts a (NodeID, endpoint) pair. */
  predicate PairStart(m: nat, p: nat) {
    p > m && (p - m) % 2 == 1
  }

  /** One of the first `n` bytes lies before the marker and names the node of `a`. */
  ghost predicate NodeListed(b: seq<Byte>, n: nat, a: Association)
    requires n <= |b|
  {
    exists i :: 0 <= i < n && i < MarkerAt(b) && b[i] == a.node
  }

  predicate PairIs(b: seq<Byte>, p: nat, a: Association)
    requires p + 1 < |b|
  {
    b[p] == a.node && b[p + 1] == a.endpoint
  }

  /** A pair that ends within the first `n` bytes is `a`. */
  ghost predicate PairListed(b: seq<Byte>, n: nat, a: Association)
    requires n <= |b|
  {
    exists p: nat :: PairStart(MarkerAt(b), p) && p + 1 < n && PairIs(b, p, a)
  }

  /** The first `n` bytes of the stream list `a`. A trailing half pair, a zero node and a node
      above 232 list nothing. */
  ghost predicate ListedBefore(b: seq<Byte>, n: nat, a: Association)
    requires n <= |b|
  {
    IsCanonical(a) && (if a.kind.NodeId? then NodeListed(b, n, a) else PairListed(b, n, a))
  }

  /** The declarative meaning of a stream: which associations it lists. */
  ghost predicate Lists(b: seq<Byte>, a: Association) {
    ListedBefore(b, |b|, a)
  }

  /** Cutting a stream short keeps exactly what the remaining bytes list. */
  lemma ListsPrefix(b: seq<Byte>, n: nat, a: Association)
    requires n <= |b|
    ensures Lists(b[..n], a) <==> ListedBefore(b, n, a)
    ensures Lists(b[..n], a) ==> Lists(b, a)
  {
    var c, m := b[..n], if n < MarkerAt(b) then n else MarkerAt(b);
    MarkerUnique(c, m);
    if a.kind.NodeId? {
      if NodeListed(b, n, a) {
        var i :| 0 <= i < n && i < MarkerAt(b) && b[i] == a.node;
        assert c[i] == a.node;
      }
    }
  }

  // -- Decoding ---------------------------------------------------------------------------

  /** Byte `n` completes the association `a`. */
  ghost predicate Completes(b: seq<Byte>, n: nat, a: Association)
    requires n < |b|
  {
    var m := MarkerAt(b);
    IsCanonical(a) &&
    if a.kind.NodeId? then n < m && a.node == b[n]
    else n > 0 && PairStart(m, n - 1) && PairIs(b, n - 1, a)
  }

  lemma ListedStep(b: seq<Byte>, n: nat, a: Association)
    requires n < |b|
    ensures ListedBefore(b, n + 1, a) <==> ListedBefore(b, n, a) || Completes(b, n, a)
  {
    if a.kind.Endpoint? && PairListed(b, n + 1, a) && !PairListed(b, n, a) {
      var p: nat :| PairStart(MarkerAt(b), p) && p + 1 < n + 1 && PairIs(b, p, a);
      assert n == p + 1;
    }
  }

  /** The association that byte `n` completes; it need not be valid. */
  function Candidate(b: seq<Byte>, n: nat): (a: seq<Association>)
    requires n < |b|
  {
    var m := MarkerAt(b);
    if n < m then [Association(NodeId, b[n], 0)]
    else if n > 0 && PairStart(m, n - 1) then [Association(Endpoint, b[n - 1], b[n])]
    else []
  }

  /** The members listed by the first `n` bytes, in the order of the set. */
  function DecodedUpTo(b: seq<Byte>, n: nat): (s: seq<Association>)
    requires n <= |b|
    ensures Sorted(s) && forall a :: a in s <==> ListedBefore(b, n, a)
  {
    if n == 0 then []
    else
      var s := DecodedUpTo(b, n - 1);
      var c := Candidate(b, n - 1);
      assert forall a :: ListedBefore(b, n, a) <==> ListedBefore(b, n - 1, a) || Completes(b, n - 1, a) by {
        forall a ensures ListedBefore(b, n, a) <==> ListedBefore(b, n - 1, a) || Completes(b, n - 1, a) {
          ListedStep(b, n - 1, a);
        }
      }
      if c != [] && IsValid(c[0]) then Insert(s, c[0]) else s
  }

  /** The group that a stream stands for. */
  function Decoded(b: seq<Byte>): (s: seq<Association>)
    ensures Sorted(s) && forall a :: a in s <==> Lists(b, a)
  {
    DecodedUpTo(b, |b|)
  }

  /** `get_association_list`: one pass over the bytes with a mode flag and a half-pair flag. */
  method Decode(source: seq<Byte>) returns (target: seq<Association>)
    ensures target == Decoded(source)
  {
    var current := Association(NodeId, 0, 0);
    var endpointByte := false;
    target := [];
    ghost var m := MarkerAt(source);
    for n := 0 to |source|
      invariant Sorted(target)
      invariant forall a :: a in target <==> ListedBefore(source, n, a)
      invariant current.kind.Endpoint? <==> n > m
      invariant current.kind.NodeId? ==> current.endpoint == 0 && !endpointByte
      invariant n > m ==> (endpointByte <==> PairStart(m, n - 1))
      invariant endpointByte ==> current.node == source[n - 1]
    {
      ghost var before := target;
      var byte := source[n];
      if byte == MARKER && current.kind.NodeId? {
        current := current.(kind := Endpoint);
      } else if current.kind.NodeId? {
        current := current.(node := byte);
        if IsValid(current) {
          target := Insert(target, current);
        }
      } else if !endpointByte {
        current := current.(node := byte);
        endpointByte := true;
      } else {
        current := current.(endpoint := byte);
        endpointByte := false;
        if IsValid(current) {
          target := Insert(target, current);
        }
      }
      assert forall a :: a in target <==> a in before || Completes(source, n, a);
      forall a ensures a in target <==> ListedBefore(source, n + 1, a) {
        ListedStep(source, n, a);
        assert a in before <==> ListedBefore(source, n, a);
      }
    }
    SameMembersEqual(target, Decoded(source));
  }

  // -- Encoding ---------------------------------------------------------------------------

  function Nodes(s: seq<Association>): (n: nat)
    ensures n <= |s|
    ensures forall i :: 0 <= i < n ==> s[i].kind.NodeId?
    ensures n < |s| ==> s[n].kind.Endpoint?
  {
    if s == [] || s[0].kind.Endpoint? then 0 else 1 + Nodes(s[1..])
  }

  /** The comparator puts every NodeID association before every endpoint association. */
  lemma NodesFirst(s: seq<Association>, i: nat)
    requires Sorted(s) && i < |s|
    ensures s[i].kind.NodeId? <==> i < Nodes(s)
  {
    if Nodes(s) <= i { assert Key(s[Nodes(s)]) <= Key(s[i]); }
  }

  /** The cast to an 8-bit value. */
  function Low(node: NodeNumber): (b: Byte)
    ensures node < 0x100 ==> b == node
  {
    node % 0x100
  }

  /** The number of bytes that the first `i` of the members take when `n` of them are NodeIDs. */
  function Length(n: nat, i: nat): nat {
    if i <= n then i else n + 1 + 2 * (i - n)
  }

  /** Byte `j` of the layout. */
  function ByteAt(s: seq<Association>, j: nat): Byte
    requires j < Length(Nodes(s), |s|)
  {
    var n := Nodes(s);
    if j < n then Low(s[j].node)
    else if j == n then MARKER
    else
      var member := s[n + (j - n - 1) / 2];
      if PairStart(n, j) then Low(member.node) else member.endpoint
  }

  /** The layout of an encoded group; the empty group is a lone marker. */
  function Layout(s: seq<Association>): (b: seq<Byte>)
    ensures s == [] ==> b == [MARKER]
    ensures s != [] ==> |b| == Length(Nodes(s), |s|) && forall j :: 0 <= j < |b| ==> b[j] == ByteAt(s, j)
  {
    if s == [] then [MARKER]
    else seq(Length(Nodes(s), |s|), j requires 0 <= j < Length(Nodes(s), |s|) => ByteAt(s, j))
  }

  /** `get_association_bytestream`: one pass over the set; the marker is written before the
      first endpoint association. */
  method Encode(source: seq<Association>) returns (target: seq<Byte>)
    requires Sorted(source)
    ensures target == Layout(source)
  {
    if source == [] {
      return [MARKER];
    }
    target := [];
    var markerInserted := false;
    for i := 0 to |source|
      invariant markerInserted <==> i > Nodes(source)
      invariant |target| == Length(Nodes(source), i)
      invariant forall j :: 0 <= j < |target| ==> target[j] == ByteAt(source, j)
    {
      NodesFirst(source, i);
      if source[i].kind.NodeId? {
        target := target + [Low(source[i].node)];
      } else {
        if !markerInserted {
          target := target + [MARKER];
          markerInserted := true;
        }
        target := target + [Low(source[i].node)];
        target := target + [source[i].endpoint];
      }
    }
  }

  ghost predicate AllCanonical(s: seq<Association>) {
    forall i :: 0 <= i < |s| ==> IsCanonical(s[i])
  }

  lemma LayoutMarker(s: seq<Association>)
    requires AllCanonical(s) && s != []
    ensures MarkerAt(Layout(s)) == Nodes(s)
  {
    forall j | 0 <= j < Nodes(s) ensures Layout(s)[j] != MARKER {
      assert Layout(s)[j] == ByteAt(s, j) == s[j].node;
    }
    MarkerUnique(Layout(s), Nodes(s));
  }

  /** Where the pair of member `i` starts, and that its two bytes are there. */
  lemma LayoutPair(s: seq<Association>, i: nat) returns (p: nat)
    requires AllCanonical(s) && Nodes(s) <= i < |s|
    ensures PairStart(Nodes(s), p) && p + 2 == Length(Nodes(s), i + 1)
    ensures p + 1 < |Layout(s)| && PairIs(Layout(s), p, s[i])
  {
    p := PairPlace(Nodes(s), i);
    PairBytes(s, i, p);
    hide ByteAt, Nodes;
    var b := Layout(s);
    assert b[p] == ByteAt(s, p);
    assert b[p + 1] == ByteAt(s, p + 1);
  }

  lemma PairBytes(s: seq<Association>, i: nat, p: nat)
    requires AllCanonical(s) && Nodes(s) <= i < |s| && p == Nodes(s) + 1 + 2 * (i - Nodes(s))
    ensures p + 1 < Length(Nodes(s), |s|) && ByteAt(s, p) == s[i].node && ByteAt(s, p + 1) == s[i].endpoint
  {
    hide Nodes;
    var q := PairPlace(Nodes(s), i);
    assert p + 1 < Length(Nodes(s), |s|);
  }

  lemma PairPlace(n: nat, i: nat) returns (p: nat)
    requires n <= i
    ensures p == n + 1 + 2 * (i - n) && PairStart(n, p) && !PairStart(n, p + 1)
    ensures n + (p - n - 1) / 2 == i == n + (p + 1 - n - 1) / 2
  {
    p := n + 1 + 2 * (i - n);
  }

  /** Conversely, every pair start in the layout belongs to a member. */
  lemma PairMember(s: seq<Association>, p: nat) returns (i: nat)
    requires AllCanonical(s) && s != [] && PairStart(Nodes(s), p) && p + 1 < |Layout(s)|
    ensures Nodes(s) <= i < |s| && p + 2 == Length(Nodes(s), i + 1)
    ensures PairIs(Layout(s), p, s[i])
  {
    i := Nodes(s) + (p - Nodes(s) - 1) / 2;
    var p' := LayoutPair(s, i);
  }

  /** The first `n` bytes of an encoded group list exactly the members that end within them. */
  lemma LayoutListsInOrder(s: seq<Association>, n: nat, i: nat)
    requires Sorted(s) && AllCanonical(s) && n <= |Layout(s)| && i < |s|
    ensures ListedBefore(Layout(s), n, s[i]) <==> Length(Nodes(s), i + 1) <= n
  {
    NodesFirst(s, i);
    if s[i].kind.NodeId? { NodeOrder(s, n, i); } else { PairOrder(s, n, i); }
  }

  lemma NodeOrder(s: seq<Association>, n: nat, i: nat)
    requires Sorted(s) && AllCanonical(s) && n <= |Layout(s)| && i < Nodes(s)
    ensures NodeListed(Layout(s), n, s[i]) <==> i < n
  {
    LayoutMarker(s);
    if NodeListed(Layout(s), n, s[i]) {
      var j :| 0 <= j < n && j < Nodes(s) && Layout(s)[j] == s[i].node;
      assert Layout(s)[j] == ByteAt(s, j) == s[j].node;
      assert s[j] == s[i];
      SortedNoDuplicates(s, i, j);
    }
    assert Layout(s)[i] == ByteAt(s, i) == s[i].node;
  }

  lemma PairOrder(s: seq<Association>, n: nat, i: nat)
    requires Sorted(s) && AllCanonical(s) && n <= |Layout(s)| && Nodes(s) <= i < |s|
    ensures PairListed(Layout(s), n, s[i]) <==> Length(Nodes(s), i + 1) <= n
  {
    LayoutMarker(s);
    var b := Layout(s);
    if PairListed(b, n, s[i]) {
      var p: nat :| PairStart(Nodes(s), p) && p + 1 < n && PairIs(b, p, s[i]);
      var i' := PairMember(s, p);
      NodesFirst(s, i');
      NodesFirst(s, i);
      assert s[i'] == s[i];
      SortedNoDuplicates(s, i, i');
    }
    var q := LayoutPair(s, i);
  }

  /** Decoding is a left inverse of encoding: an encoded canonical set lists exactly its members. */
  lemma EncodedLists(s: seq<Association>, a: Association)
    requires Sorted(s) && AllCanonical(s)
    ensures Lists(Layout(s), a) <==> a in s
  {
    if a in s {
      var i :| 0 <= i < |s| && s[i] == a;
      LayoutListsInOrder(s, |Layout(s)|, i);
    }
    if Lists(Layout(s), a) && s != [] {
      if a.kind.NodeId? { NodeDecoded(s, a); } else { PairDecoded(s, a); }
    }
  }

  lemma NodeDecoded(s: seq<Association>, a: Association)
    requires Sorted(s) && AllCanonical(s) && s != [] && IsCanonical(a) && a.kind.NodeId?
    requires NodeListed(Layout(s), |Layout(s)|, a)
    ensures a in s
  {
    LayoutMarker(s);
    var j :| 0 <= j < Nodes(s) && Layout(s)[j] == a.node;
    assert Layout(s)[j] == ByteAt(s, j) == s[j].node;
    assert s[j] == a;
  }

  lemma PairDecoded(s: seq<Association>, a: Association)
    requires Sorted(s) && AllCanonical(s) && s != [] && IsCanonical(a) && a.kind.Endpoint?
    requires PairListed(Layout(s), |Layout(s)|, a)
    ensures a in s
  {
    LayoutMarker(s);
    var b, n := Layout(s), |Layout(s)|;
    var p: nat :| PairStart(Nodes(s), p) && p + 1 < n && PairIs(b, p, a);
    PairAtMember(s, a, p);
  }

  lemma PairAtMember(s: seq<Association>, a: Association, p: nat)
    requires Sorted(s) && AllCanonical(s) && s != [] && a.kind.Endpoint?
    requires PairStart(Nodes(s), p) && p + 1 < |Layout(s)| && PairIs(Layout(s), p, a)
    ensures a in s
  {
    var i := PairMember(s, p);
    NodesFirst(s, i);
    assert s[i] == a;
  }

  // -- Round trips ------------------------------------------------------------------------

  lemma DecodedCanonical(b: seq<Byte>)
    ensures AllCanonical(Decoded(b))
  {
    var t := Decoded(b);
    forall i | 0 <= i < |t| ensures IsCanonical(t[i]) { assert t[i] in t; }
  }

  /** Streams that list the same associations decode to the same group. */
  lemma DecodedExtensional(b: seq<Byte>, s: seq<Association>)
    requires Sorted(s) && forall a :: a in s <==> Lists(b, a)
    ensures Decoded(b) == s
  {
    SameMembersEqual(Decoded(b), s);
  }

  /** A set survives encoding followed by decoding exactly when all its members are canonical:
      valid node numbers, and endpoint 0 on NodeID associations. */
  lemma RoundTrip(s: seq<Association>)
    requires Sorted(s)
    ensures Decoded(Layout(s)) == s <==> AllCanonical(s)
  {
    DecodedCanonical(Layout(s));
    if AllCanonical(s) {
      forall a ensures a in s <==> Lists(Layout(s), a) { EncodedLists(s, a); }
      DecodedExtensional(Layout(s), s);
    }
  }

  /** For every byte string, decode, encode, decode gives what the first decode gave; so encode
      after decode is an idempotent normal form, and two streams have the same normal form
      exactly when they list the same associations. */
  lemma NormalForm(b: seq<Byte>, c: seq<Byte>)
    ensures Decoded(Layout(Decoded(b))) == Decoded(b)
    ensures Layout(Decoded(Layout(Decoded(b)))) == Layout(Decoded(b))
    ensures Layout(Decoded(b)) == Layout(Decoded(c)) <==> (forall a :: Lists(b, a) <==> Lists(c, a))
  {
    DecodedCanonical(b);
    DecodedCanonical(c);
    RoundTrip(Decoded(b));
    RoundTrip(Decoded(c));
    if forall a :: Lists(b, a) <==> Lists(c, a) {
      DecodedExtensional(b, Decoded(c));
    }
    if Decoded(b) == Decoded(c) {
      forall a ensures Lists(b, a) <==> Lists(c, a) { assert a in Decoded(b) <==> Lists(b, a); }
    }
  }

  /** Node numbers above 255 do not fit the stream: an encoded long-range node comes back as a
      different node. */
  lemma LongRangeNodeIsMistaken()
    ensures Decoded(Layout([Association(NodeId, 300, 0)])) == [Association(NodeId, 44, 0)]
  {
    var s, t := [Association(NodeId, 300, 0)], [Association(NodeId, 44, 0)];
    assert Nodes(s) == 1;
    assert Layout(s)[0] == ByteAt(s, 0) == 44;
    MarkerUnique(Layout(s), 1);
    forall a ensures a in t <==> Lists(Layout(s), a) {
      if a in t { assert Layout(s)[0] == a.node; }
    }
    DecodedExtensional(Layout(s), t);
  }

  /** A stream cut to `n` bytes lists only members of the encoded group. */
  lemma CutLayoutShrinks(s: seq<Association>, n: nat)
    requires Sorted(s) && AllCanonical(s) && n <= |Layout(s)|
    ensures forall a :: a in Decoded(Layout(s)[..n]) ==> a in s
    ensures |Decoded(Layout(s)[..n])| <= |s|
  {
    var d := Decoded(Layout(s)[..n]);
    forall a | a in d ensures a in s {
      ListsPrefix(Layout(s), n, a);
      EncodedLists(s, a);
    }
    SizeMonotone(d, s);
  }

  /** A stream that was really cut no longer lists the last member. */
  lemma CutLayoutLosesLast(s: seq<Association>, n: nat)
    requires Sorted(s) && AllCanonical(s) && s != [] && n < |Layout(s)|
    ensures !Lists(Layout(s)[..n], s[|s| - 1])
  {
    LayoutListsInOrder(s, n, |s| - 1);
    ListsPrefix(Layout(s), n, s[|s| - 1]);
  }

  /** An encoded group cut to `n` bytes stands for the whole group only if nothing was cut. */
  lemma CutLayout(s: seq<Association>, n: nat)
    requires Sorted(s) && AllCanonical(s) && s != [] && n <= |Layout(s)|
    ensures Decoded(Layout(s)[..n]) == s <==> n == |Layout(s)|
  {
    if n == |Layout(s)| {
      assert Layout(s)[..n] == Layout(s);
      RoundTrip(s);
    } else {
      CutLayoutLosesLast(s, n);
      assert s[|s| - 1] in s;
      assert s[|s| - 1] !in Decoded(Layout(s)[..n]);
    }
  }
}
