/** The rule book of the attribute resolver, and the groups of nodes that one rule resolves
    together. */
module RuleGroups {
  import opened Common
  import opened NodeHeap
  import opened ResolverWalk

  type Typ = nat
  type RuleId = nat

  datatype RuleType = SetRule | GetRule

  /** Which functions a rule has. */
  datatype Kind = Kind(sets: bool, gets: bool)

  predicate Has(k: Kind, t: RuleType) {
    if t.SetRule? then k.sets else k.gets
  }

  /** `rule_book`, `rule_book_inverted`, the rules themselves, and `relatives`. */
  datatype Book = Book(rule: map<Typ, RuleId>, inverted: set<(RuleId, Typ)>, kinds: map<RuleId, Kind>,
      relatives: map<Typ, int>)

  const DEFAULT_GROUPING_DEPTH: int := 1

  function DepthOf(b: Book, t: Typ): int {
    if t in b.relatives then b.relatives[t] else DEFAULT_GROUPING_DEPTH
  }

  predicate HasRule(b: Book, t: Typ, r: RuleType) {
    t in b.rule && b.rule[t] in b.kinds && Has(b.kinds[b.rule[t]], r)
  }

  /** `attribute_resolver_rule_get_group` */
  function GroupTypes(b: Book, r: RuleType, t: Typ): set<Typ> {
    if HasRule(b, t, r) then set e | e in b.inverted && e.0 == b.rule[t] :: e.1 else {}
  }

  // -- Registration -----------------------------------------------------------------------

  /** Every type is registered once: the two books say the same. */
  ghost predicate Once(b: Book) {
    && (forall t {:trigger b.rule[t]} :: t in b.rule ==> (b.rule[t], t) in b.inverted && b.rule[t] in b.kinds)
    && (forall e {:trigger e in b.inverted} :: e in b.inverted ==> e.1 in b.rule && b.rule[e.1] == e.0)
  }

  /** The types of one rule are grouped at the same depth. */
  ghost predicate SameDepth(b: Book) {
    forall t, u {:trigger b.rule[t], b.rule[u]} :: t in b.rule && u in b.rule && b.rule[t] == b.rule[u] ==>
        DepthOf(b, t) == DepthOf(b, u)
  }

  /** The other types of the rule of a type. */
  ghost function Mates(b: Book, t: Typ): set<Typ> {
    set u | u in b.rule && u != t && t in b.rule && b.rule[u] == b.rule[t]
  }

  class RuleBook {
    var book: Book
    var nextRule: RuleId

    /** Rule ids stand for the addresses of the rules: a new one is not in use. */
    ghost predicate Valid()
      reads this
    {
      (forall r :: r in book.kinds ==> r < nextRule) && (forall e :: e in book.inverted ==> e.0 < nextRule)
    }

    constructor ()
      ensures Valid() && book == Book(map[], {}, map[], map[]) && Once(book)
    {
      book, nextRule := Book(map[], {}, map[], map[]), 0;
    }

    /** `register_group_rules_internal`; with one type it is `register_rules_internal`. The rule of
        a type is replaced, but its old entry in the inverted book stays. So the books keep
        agreeing if and only if none of the types had a rule. */
    method Register(types: set<Typ>, kind: Kind)
      requires Valid()
      modifies this
      ensures Valid()
      ensures book == Registered(old(book), old(nextRule), types, kind)
      ensures old(Once(book)) ==> (Once(book) <==> types !! old(book).rule.Keys)
    {
      hide Once;
      ghost var before := book;
      var rule := nextRule;
      nextRule := nextRule + 1;
      book := book.(kinds := book.kinds[rule := kind]);
      var rest := types;
      while rest != {}
        invariant rest <= types && Valid() && nextRule == rule + 1
        invariant book == Registered(before, rule, types - rest, kind)
        decreases rest
      {
        var t :| t in rest;
        assert types - (rest - {t}) == (types - rest) + {t};
        RegisteredMore(before, rule, types - rest, t, kind);
        book := book.(rule := book.rule[t := rule], inverted := book.inverted + {(rule, t)});
        rest := rest - {t};
      }
      assert types - rest == types;
      RegisteredOnceIff(before, rule, types, kind);
    }

    /** `attribute_resolver_set_attribute_depth`: the type is grouped at the new depth, which type goes
        with which does not change, and the types of a rule still share a depth if and only if the new
        depth is that of the other types of the rule. */
    method SetDepth(t: Typ, depth: int)
      requires Valid()
      modifies this`book
      ensures Valid() && (Once(book) <==> old(Once(book)))
      ensures DepthOf(book, t) == depth && forall u :: u != t ==> DepthOf(book, u) == DepthOf(old(book), u)
      ensures forall r, u :: GroupTypes(book, r, u) == GroupTypes(old(book), r, u)
      ensures old(SameDepth(book)) ==>
                (SameDepth(book) <==> forall u :: u in Mates(old(book), t) ==> DepthOf(old(book), u) == depth)
    {
      book := book.(relatives := book.relatives[t := depth]);
    }
  }

  ghost function Registered(b: Book, rule: RuleId, types: set<Typ>, kind: Kind): Book {
    b.(rule := b.rule + (map t | t in types :: rule),
       inverted := b.inverted + (set t | t in types :: (rule, t)),
       kinds := b.kinds[rule := kind])
  }

  lemma RegisteredMore(b: Book, rule: RuleId, types: set<Typ>, t: Typ, kind: Kind)
    ensures Registered(b, rule, types + {t}, kind) ==
            var r := Registered(b, rule, types, kind); r.(rule := r.rule[t := rule],
                inverted := r.inverted + {(rule, t)})
  {
    var x, y := Registered(b, rule, types, kind), Registered(b, rule, types + {t}, kind);
    assert y.rule == x.rule[t := rule];
    assert y.inverted == x.inverted + {(rule, t)};
  }

  lemma RegisteredOnceIff(b: Book, rule: RuleId, types: set<Typ>, kind: Kind)
    requires (forall r :: r in b.kinds ==> r < rule) && (forall e :: e in b.inverted ==> e.0 < rule)
    ensures Once(b) ==> (Once(Registered(b, rule, types, kind)) <==> types !! b.rule.Keys)
  {
    var r := Registered(b, rule, types, kind);
    if Once(b) && exists t :: t in types && t in b.rule {
      var t :| t in types && t in b.rule;
      assert (b.rule[t], t) in b.inverted;
      assert (b.rule[t], t) in r.inverted && r.rule[t] == rule;
    }
  }

  // -- Groups of nodes --------------------------------------------------------------------

  /** `d` steps up from `p`. */
  function Ancestor(h: Heap, p: Ptr, d: nat): Option<Ptr>
    decreases d
  {
    if p !in h then None
    else if d == 0 then Some(p)
    else if h[p].parent.None? then None
    else Ancestor(h, h[p].parent.value, d - 1)
  }

  /** The group of `p`: the nodes that have the same `depth`-th ancestor and whose types are
      registered with the rule of `p`. */
  ghost function Group(b: Book, h: Heap, r: RuleType, p: Ptr): set<Ptr> {
    if p !in h || DepthOf(b, h[p].typ) < 0 then {}
    else
      var d, types := DepthOf(b, h[p].typ), GroupTypes(b, r, h[p].typ);
      set q | q in h && h[q].typ in types && Ancestor(h, p, d).Some? && Ancestor(h, q, d) == Ancestor(h, p, d)
  }

  /** Being `d` steps above is being an ancestor `d` levels up. */
  lemma {:induction false} AncestorLevel(w: World, a: Ptr, q: Ptr, d: nat)
    requires Good(w)
    ensures Ancestor(w.h, q, d) == Some(a) <==> Under(w.h, w.lev, a, q) && a in w.lev && w.lev[q] == w.lev[a] + d
    decreases d
  {
    hide LinkedDown, NoTwins;
    if q in w.h {
      if Under(w.h, w.lev, a, q) { UnderLevel(w.h, w.lev, a, q); }
      if q != w.root { ParentLevel(w.h, w.root, w.lev, w.n, q); }
      if d > 0 && w.h[q].parent.Some? { AncestorLevel(w, a, w.h[q].parent.value, d - 1); }
    }
  }

  /** The nodes `d` levels below `q` that have one of the types. */
  ghost function Level(w: World, q: Ptr, d: int, types: set<Typ>): set<Ptr>
    requires Good(w) && q in w.h
  {
    set x | x in w.h && Under(w.h, w.lev, q, x) && w.lev[x] == w.lev[q] + d && w.h[x].typ in types
  }

  lemma LevelBelow(w: World, q: Ptr, d: int, types: set<Typ>, x: Ptr)
    requires Good(w) && q in w.h
    ensures d < 0 ==> x !in Level(w, q, d, types)
    ensures d == 0 ==> (x in Level(w, q, d, types) <==> x == q && w.h[q].typ in types)
    ensures d > 0 ==> (x in Level(w, q, d, types) <==>
                       exists j :: 0 <= j < |w.h[q].children| && x in Level(w, w.h[q].children[j], d - 1, types))
  {
    var cs := w.h[q].children;
    if x in w.h && Under(w.h, w.lev, q, x) {
      UnderLevel(w.h, w.lev, q, x);
      if x in Level(w, q, d, types) && d > 0 { var j := UnderDown(w.h, w.root, w.lev, w.n, q, x); }
    }
    if d == 0 && x == q { assert Under(w.h, w.lev, q, q); }
    if j :| 0 <= j < |cs| && x in Level(w, cs[j], d - 1, types) {
      UnderUp(w.h, w.lev, q, cs[j], x);
    }
  }

  lemma LevelAbove(w: World, q: Ptr, d: int, types: set<Typ>)
    requires Good(w) && q in w.h && d < 0
    ensures Level(w, q, d, types) == {}
  {
    var level := Level(w, q, d, types);
    forall x ensures x !in level { LevelBelow(w, q, d, types, x); }
  }

  /** The visitor of the group lookup, run by `attribute::visit` from the top and down. */
  method Visit(h: Heap, q: Ptr, level: int, depth: int, types: set<Typ>, found: set<Ptr>,
      ghost w: World) returns (result: set<Ptr>)
    requires Good(w) && w.h == h && q in h
    ensures result == found + Level(w, q, depth - level, types)
    decreases w.n - w.lev[q]
  {
    hide LinkedUp, NoTwins, Level;
    if level > depth {
      LevelAbove(w, q, depth - level, types);
      return found;
    }
    result := found;
    if level == depth && h[q].typ in types { result := result + {q}; }
    ghost var own := result;
    var cs := h[q].children;
    for i := 0 to |cs|
      invariant forall x :: x in result <==> x in own || exists j ::
                0 <= j < i &&
                x in Level(w, cs[j], depth - level - 1, types)
    {
      result := Visit(h, cs[i], level + 1, depth, types, result, w);
    }
    forall x ensures x in result <==> x in found + Level(w, q, depth - level, types) {
      LevelBelow(w, q, depth - level, types, x);
      if level == depth {
        forall j | 0 <= j < |cs| ensures x !in Level(w, cs[j], -1, types) { LevelBelow(w, cs[j], -1, types, x); }
      }
    }
  }

  /** `attribute_resolver_rule_get_group_nodes` finds exactly the group. */
  method GroupNodes(b: Book, h: Heap, r: RuleType, p: Ptr, ghost w: World) returns (result: set<Ptr>)
    requires Good(w) && w.h == h
    ensures result == Group(b, h, r, p)
  {
    hide Good, Level, Under, GroupTypes;
    if p !in h { return {}; }
    var types, depth := GroupTypes(b, r, h[p].typ), DepthOf(b, h[p].typ);
    if depth < 0 { return {}; }
    var top := AncestorOf(h, p, depth);
    if top.None? { return {}; }
    TopInHeap(h, p, depth);
    result := Visit(h, top.value, 0, depth, types, {}, w);
    forall x ensures x in Level(w, top.value, depth, types) <==> x in Group(b, h, r, p) {
      LevelIsGroup(w, top.value, depth, types, x);
    }
  }

  /** The loop that goes `depth` parents up. */
  method AncestorOf(h: Heap, p: Ptr, depth: nat) returns (top: Option<Ptr>)
    requires p in h
    ensures top == Ancestor(h, p, depth)
  {
    top := Some(p);
    for i := 0 to depth
      invariant Ancestor(h, p, depth) == if top.Some? then Ancestor(h, top.value, depth - i) else None
      invariant top.Some? ==> top.value in h
    {
      top := if top.Some? then h[top.value].parent else None;
      if top.Some? && top.value !in h { top := None; }
    }
  }

  lemma {:induction false} TopInHeap(h: Heap, p: Ptr, d: nat)
    ensures Ancestor(h, p, d).Some? ==> Ancestor(h, p, d).value in h
    decreases d
  {
    if p in h && d > 0 && h[p].parent.Some? { TopInHeap(h, h[p].parent.value, d - 1); }
  }

  lemma LevelIsGroup(w: World, a: Ptr, d: nat, types: set<Typ>, x: Ptr)
    requires Good(w) && a in w.h
    ensures x in Level(w, a, d, types) <==> x in w.h && w.h[x].typ in types && Ancestor(w.h, x, d) == Some(a)
  {
    AncestorLevel(w, a, x, d);
  }

  // -- Groups partition the nodes ---------------------------------------------------------

  lemma GroupTypesAgree(b: Book, r: RuleType, t: Typ, u: Typ)
    requires Once(b) && SameDepth(b) && u in GroupTypes(b, r, t)
    ensures HasRule(b, u, r) && GroupTypes(b, r, u) == GroupTypes(b, r, t) && DepthOf(b, u) == DepthOf(b, t)
  {
    assert (b.rule[t], u) in b.inverted;
  }

  /** Members of a group have the same group: with reflexivity below, being in a group together is
      an equivalence. */
  lemma GroupsAgree(b: Book, h: Heap, r: RuleType, p: Ptr, q: Ptr)
    requires Once(b) && SameDepth(b) && q in Group(b, h, r, p)
    ensures Group(b, h, r, q) == Group(b, h, r, p)
  {
    hide Once, SameDepth, GroupTypes, Ancestor;
    GroupTypesAgree(b, r, h[p].typ, h[q].typ);
  }

  /** A node is in its own group if and only if its type has the rule and it has the ancestors. */
  lemma InOwnGroupIff(b: Book, h: Heap, r: RuleType, p: Ptr)
    requires Once(b)
    ensures p in Group(b, h, r, p) <==>
            p in h && HasRule(b, h[p].typ, r) && DepthOf(b, h[p].typ) >= 0 && Ancestor(h, p, DepthOf(b, h[p].typ)).Some?
  {
    hide Ancestor;
    if p in h && HasRule(b, h[p].typ, r) { assert (b.rule[h[p].typ], h[p].typ) in b.inverted; }
  }

  /** Symmetry in the usual form. */
  lemma GroupSymmetric(b: Book, h: Heap, r: RuleType, p: Ptr, q: Ptr)
    requires Once(b) && SameDepth(b) && q in Group(b, h, r, p)
    ensures p in Group(b, h, r, q)
  {
    InOwnGroupIff(b, h, r, p);
    GroupsAgree(b, h, r, p, q);
  }

  /** Types 5 and 6 get a rule together, and type 5 then one of its own. */
  ghost function RegisteredTwice(): Book {
    Registered(Registered(Book(map[], {}, map[], map[]), 0, {5, 6}, Kind(true, true)), 1, {5}, Kind(true, true))
  }

  /** Node 2 of type 5 and node 3 of type 6 below one parent. */
  function Siblings(): Heap {
    map[1 := Node(0, 0, None, [2, 3], [], []), 2 := Node(0, 5, Some(1), [], [], []),
        3 := Node(0, 6, Some(1), [], [], [])]
  }

  lemma RegisteredTwiceTypes()
    ensures 5 in GroupTypes(RegisteredTwice(), SetRule, 6) && 6 !in GroupTypes(RegisteredTwice(), SetRule, 5)
  {
    var a := Registered(Book(map[], {}, map[], map[]), 0, {5, 6}, Kind(true, true));
    var b := Registered(a, 1, {5}, Kind(true, true));
    assert (0, 5) in a.inverted && (0, 6) in a.inverted && (0, 5) in b.inverted;
    assert b.rule[5] == 1 && b.rule[6] == 0;
    assert (1, 6) !in b.inverted;
  }

  /** Registering a type again breaks the symmetry: node 2 is in the group of node 3, but node 3 is not
      in the group of node 2. */
  lemma RegisteredTwiceIsAsymmetric()
    ensures 2 in Group(RegisteredTwice(), Siblings(), SetRule, 3) &&
            3 !in Group(RegisteredTwice(), Siblings(), SetRule, 2)
  {
    var h := Siblings();
    RegisteredTwiceTypes();
    assert RegisteredTwice().relatives == map[];
    hide RegisteredTwice, GroupTypes;
    assert Ancestor(h, 1, 0) == Some(1);
    assert Ancestor(h, 2, 1) == Some(1) && Ancestor(h, 3, 1) == Some(1);
  }
}
