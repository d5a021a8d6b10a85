/**
 Child reconciliation: the elements under a parent are made to follow the new list of virtual
 nodes, elements of old nodes being kept and moved where a new node is the same.
 Keys are looked up in a plain object, which answers to some names of its own accord; what is proved
 is exactly when a pass survives that, and that a pass that does has done what it should.
 */
module VueChildren {
  import opened Wrappers

  /** The `type` attribute as the comparison sees it: the node may have no attributes, the attributes no type. */
  datatype InputType = NoAttributes | Untyped | Typed(name: string)

  datatype VNode = VNode(key: Option<string>, tag: Option<string>, isComment: bool, hasData: bool, inputType: InputType)

  type Elm = nat

  predicate SameInputType(a: VNode, b: VNode) {
    a.tag != Some("input") || a.inputType == b.inputType
  }

  predicate SameVnode(a: VNode, b: VNode) {
    a.key == b.key && a.tag == b.tag && a.isComment == b.isComment && a.hasData == b.hasData && SameInputType(a, b)
  }

  /** Nodes are the same if nothing that is compared tells them apart; the type counts for inputs only. */
  lemma {:induction false} SameVnodeExactly(a: VNode, b: VNode)
    ensures SameVnode(a, b) <==>
      && a.key == b.key && a.tag == b.tag && a.isComment == b.isComment && a.hasData == b.hasData
      && (a.tag == Some("input") ==> a.inputType == b.inputType)
  {
  }

  // ---------- names that a plain object answers to ----------

  /** The one of them that cannot even be entered. */
  const PROTO := "__proto__"

  /** The names that every object inherits (section 19.1.3 and annex B.2.2 of ECMA-262, 8th edition). */
  predicate Inherited(name: string) {
    || name == PROTO || name == "constructor" || name == "hasOwnProperty" || name == "isPrototypeOf"
    || name == "propertyIsEnumerable" || name == "toLocaleString" || name == "toString" || name == "valueOf"
    || name == "__defineGetter__" || name == "__defineSetter__" || name == "__lookupGetter__"
      || name == "__lookupSetter__"
  }

  ghost predicate HasKey(olds: seq<VNode>, key: string) {
    exists j :: 0 <= j < |olds| && olds[j].key == Some(key)
  }

  /** A new node for whose key something is found that is not the place of an old node. */
  ghost predicate Misled(olds: seq<VNode>, node: VNode) {
    node.key.Some? && Inherited(node.key.value) && (node.key.value == PROTO || !HasKey(olds, node.key.value))
  }

  /** The old node with the same key as a new node, if it is the same in all other respects. */
  ghost predicate PartnerIs(olds: seq<VNode>, node: VNode, partner: Option<nat>) {
    if partner.None? then node.key.Some? ==> forall j :: 0 <= j < |olds| ==> !SameVnode(olds[j], node)
    else partner.value < |olds| && node.key.Some? && SameVnode(olds[partner.value], node)
  }

  /** Without the old node that a new node is paired with. */
  function WithoutPartner(current: seq<Option<VNode>>, partner: Option<nat>): (rest: seq<Option<VNode>>)
    ensures |rest| == |current|
  {
    if partner.Some? && partner.value < |current| then current[partner.value := None] else current
  }

  /** From here on the pass looks up no key of a node that is misled. */
  ghost predicate Survives(olds: seq<VNode>, news: seq<VNode>, current: seq<Option<VNode>>, os: int, oe: int, ns: int,
        ne: int)
    requires 0 <= os && oe <= |current| && 0 <= ns && ne <= |news|
    decreases oe - os + ne - ns
  {
    if os >= oe || ns >= ne then true
    else if current[os].None? then Survives(olds, news, current, os + 1, oe, ns, ne)
    else if current[oe - 1].None? then Survives(olds, news, current, os, oe - 1, ns, ne)
    else if SameVnode(current[os].value, news[ns]) then Survives(olds, news, current, os + 1, oe, ns + 1, ne)
    else if SameVnode(current[oe - 1].value, news[ne - 1]) then Survives(olds, news, current, os, oe - 1, ns, ne - 1)
    else if SameVnode(current[os].value, news[ne - 1]) then Survives(olds, news, current, os + 1, oe, ns, ne - 1)
    else if SameVnode(current[oe - 1].value, news[ns]) then Survives(olds, news, current, os, oe - 1, ns + 1, ne)
    else
      && !Misled(olds, news[ns])
      && forall partner :: PartnerIs(olds, news[ns], partner) ==>
        Survives(olds, news, WithoutPartner(current, partner), os, oe, ns + 1, ne)
  }

  function AllThere(olds: seq<VNode>): (current: seq<Option<VNode>>)
    ensures |current| == |olds|
  {
    seq(|olds|, j requires 0 <= j < |olds| => Some(olds[j]))
  }

  /** The pass over all the nodes looks up no key of a node that is misled. */
  ghost predicate SurvivesPass(olds: seq<VNode>, news: seq<VNode>) {
    Survives(olds, news, AllThere(olds), 0, |olds|, 0, |news|)
  }

  /** With unique keys there is no choice of a partner. */
  lemma {:induction false} OnePartner(olds: seq<VNode>, node: VNode, p: Option<nat>, q: Option<nat>)
    requires UniqueKeys(olds) && PartnerIs(olds, node, p) && PartnerIs(olds, node, q)
    ensures p == q
  {
  }

  /** After a lookup that was not misled the pass goes on without the partner. */
  lemma {:induction false} SurvivesLookup(olds: seq<VNode>, news: seq<VNode>, nodes: seq<Option<VNode>>,
        current: seq<Option<VNode>>,
      os: int, oe: int, ns: int, ne: int)
    requires UniqueKeys(olds) && 0 <= os < oe <= |nodes| && 0 <= ns < ne <= |news| && nodes[os].Some?
    requires nodes[oe - 1].Some?
    requires !SameVnode(nodes[os].value, news[ns]) && !SameVnode(nodes[oe - 1].value, news[ne - 1])
    requires !SameVnode(nodes[os].value, news[ne - 1]) && !SameVnode(nodes[oe - 1].value, news[ns])
    requires !Misled(olds, news[ns])
    requires exists partner :: PartnerIs(olds, news[ns], partner) && current == WithoutPartner(nodes, partner)
    ensures |current| == |nodes|
    ensures Survives(olds, news, nodes, os, oe, ns, ne) <==> Survives(olds, news, current, os, oe, ns + 1, ne)
  {
    hide SameVnode, Misled, PartnerIs, WithoutPartner;
    var p :| PartnerIs(olds, news[ns], p) && current == WithoutPartner(nodes, p);
    forall q | PartnerIs(olds, news[ns], q) ensures q == p {
      OnePartner(olds, news[ns], p, q);
    }
  }

  /** A pass over nodes none of which is misled survives. */
  lemma {:induction false} NoneMisled(olds: seq<VNode>, news: seq<VNode>, current: seq<Option<VNode>>, os: int,
        oe: int, ns: int, ne: int)
    requires 0 <= os && oe <= |current| && 0 <= ns && ne <= |news|
    requires forall i :: 0 <= i < |news| ==> !Misled(olds, news[i])
    ensures Survives(olds, news, current, os, oe, ns, ne)
    decreases oe - os + ne - ns
  {
    hide Misled, PartnerIs, SameVnode;
    if os < oe && ns < ne {
      NoneMisled(olds, news, current, os + 1, oe, ns, ne);
      NoneMisled(olds, news, current, os, oe - 1, ns, ne);
      NoneMisled(olds, news, current, os + 1, oe, ns + 1, ne);
      NoneMisled(olds, news, current, os, oe - 1, ns, ne - 1);
      NoneMisled(olds, news, current, os + 1, oe, ns, ne - 1);
      NoneMisled(olds, news, current, os, oe - 1, ns + 1, ne);
      forall partner | PartnerIs(olds, news[ns], partner)
        ensures Survives(olds, news, WithoutPartner(current, partner), os, oe, ns + 1, ne)
      {
        NoneMisled(olds, news, WithoutPartner(current, partner), os, oe, ns + 1, ne);
      }
    }
  }

  function Keyed(key: string): VNode {
    VNode(Some(key), Some("li"), false, false, NoAttributes)
  }

  /** An old list of one node does not survive being replaced by a node with a name that objects inherit ... */
  lemma {:induction false} InheritedNameFails(key: string)
    requires key != "constructor"
    ensures !SurvivesPass([Keyed(key)], [Keyed("constructor")])
  {
    assert Keyed(key) != Keyed("constructor");
    assert Misled([Keyed(key)], Keyed("constructor"));
  }

  /** ... though it survives if that node is added behind it. */
  lemma {:induction false} InheritedNameAppended(key: string)
    ensures SurvivesPass([Keyed(key)], [Keyed(key), Keyed("constructor")])
  {
    assert AllThere([Keyed(key)])[0] == Some(Keyed(key));
  }

  // ---------- the document ----------

  ghost predicate Distinct(s: seq<Elm>) {
    forall e :: multiset(s)[e] <= 1
  }

  lemma DistinctParts(a: seq<Elm>, e: Elm, b: seq<Elm>)
    requires Distinct(a + [e] + b)
    ensures e !in a && e !in b
  {
    assert multiset(a + [e] + b)[e] == multiset(a)[e] + 1 + multiset(b)[e];
  }

  function Without(s: seq<Elm>, e: Elm): seq<Elm> {
    if s == [] then [] else (if s[0] == e then [] else [s[0]]) + Without(s[1..], e)
  }

  /** `e` put before `ref`, or at the end if there is no `ref`. */
  function Before(s: seq<Elm>, e: Elm, ref: Option<Elm>): seq<Elm> {
    if s == [] then [e]
    else if Some(s[0]) == ref then [e] + s
    else [s[0]] + Before(s[1..], e, ref)
  }

  function NextAfter(s: seq<Elm>, e: Elm): Option<Elm> {
    if s == [] then None
    else if s[0] == e then (if |s| > 1 then Some(s[1]) else None)
    else NextAfter(s[1..], e)
  }

  lemma Regroup(a: seq<Elm>, b: seq<Elm>, c: seq<Elm>)
    ensures (a + b) + c == a + (b + c)
  {
  }

  lemma {:induction false} WithoutAbsent(s: seq<Elm>, e: Elm)
    requires e !in s
    ensures Without(s, e) == s
  {
    if s != [] {
      WithoutAbsent(s[1..], e);
      assert [s[0]] + s[1..] == s;
    }
  }

  lemma {:induction false} WithoutConcat(s: seq<Elm>, t: seq<Elm>, e: Elm)
    ensures Without(s + t, e) == Without(s, e) + Without(t, e)
  {
    if s == [] {
      assert s + t == t;
    } else {
      WithoutConcat(s[1..], t, e);
      assert (s + t)[0] == s[0] && (s + t)[1..] == s[1..] + t;
      Regroup(if s[0] == e then [] else [s[0]], Without(s[1..], e), Without(t, e));
    }
  }

  lemma WithoutSelf(e: Elm)
    ensures Without([e], e) == []
  {
    assert [e][1..] == [];
  }

  lemma WithoutOne(a: seq<Elm>, e: Elm, b: seq<Elm>)
    requires e !in a && e !in b
    ensures Without(a + [e] + b, e) == a + b
  {
    WithoutConcat(a + [e], b, e);
    WithoutConcat(a, [e], e);
    WithoutSelf(e);
    WithoutAbsent(a, e);
    WithoutAbsent(b, e);
    assert a + [] == a;
  }

  lemma {:induction false} BeforeRef(a: seq<Elm>, e: Elm, ref: Elm, b: seq<Elm>)
    requires ref !in a
    ensures Before(a + ([ref] + b), e, Some(ref)) == a + ([e] + ([ref] + b))
  {
    var s := a + ([ref] + b);
    if a == [] {
      assert s == [ref] + b && s[0] == ref;
    } else {
      BeforeRef(a[1..], e, ref, b);
      assert s[0] == a[0] && s[1..] == a[1..] + ([ref] + b);
      assert [a[0]] + (a[1..] + ([e] + ([ref] + b))) == a + ([e] + ([ref] + b));
    }
  }

  lemma {:induction false} BeforeNone(a: seq<Elm>, e: Elm)
    ensures Before(a, e, None) == a + [e]
  {
    if a != [] {
      BeforeNone(a[1..], e);
      assert [a[0]] + (a[1..] + [e]) == a + [e];
    }
  }

  lemma {:induction false} WithoutWithin(s: seq<Elm>, e: Elm)
    ensures forall x :: x in Without(s, e) ==> x in s
  {
    if s != [] {
      WithoutWithin(s[1..], e);
    }
  }

  lemma {:induction false} BeforeWithin(s: seq<Elm>, e: Elm, ref: Option<Elm>)
    ensures forall x :: x in Before(s, e, ref) ==> x == e || x in s
  {
    if s != [] {
      BeforeWithin(s[1..], e, ref);
    }
  }

  lemma MovedWithin(s: seq<Elm>, e: Elm, ref: Option<Elm>)
    ensures forall x :: x in Before(Without(s, e), e, ref) ==> x == e || x in s
  {
    WithoutWithin(s, e);
    BeforeWithin(Without(s, e), e, ref);
  }

  lemma {:induction false} NextAfterOne(a: seq<Elm>, e: Elm, b: seq<Elm>)
    requires e !in a
    ensures NextAfter(a + ([e] + b), e) == if b == [] then None else Some(b[0])
  {
    var s := a + ([e] + b);
    if a == [] {
      assert s == [e] + b;
    } else {
      NextAfterOne(a[1..], e, b);
      assert s[0] == a[0] && s[1..] == a[1..] + ([e] + b);
    }
  }

  /** An element with children, the part of the document that is updated. */
  class Parent {
    var children: seq<Elm>
    /** No element so far has this number or a larger one. */
    var nextElm: Elm

    constructor (children: seq<Elm>, nextElm: Elm)
      ensures this.children == children && this.nextElm == nextElm
    {
      this.children, this.nextElm := children, nextElm;
    }

    /** The document's `insertBefore`: an element that is already there is moved. */
    method InsertBefore(e: Elm, ref: Option<Elm>)
      modifies this`children
      ensures children == if ref == Some(e) then old(children) else Before(Without(old(children), e), e, ref)
    {
      if ref != Some(e) {
        children := Before(Without(children, e), e, ref);
      }
    }

    method NextSibling(e: Elm) returns (next: Option<Elm>)
      ensures next == NextAfter(children, e)
    {
      next := NextAfter(children, e);
    }

    method RemoveChild(e: Elm)
      modifies this`children
      ensures children == Without(old(children), e)
    {
      children := Without(children, e);
    }

    /** A new element, put before `ref`. */
    method CreateElm(ref: Option<Elm>) returns (e: Elm)
      modifies this
      ensures e == old(nextElm) && nextElm == e + 1
      ensures children == Before(old(children), e, ref)
    {
      e := nextElm;
      nextElm := nextElm + 1;
      children := Before(children, e, ref);
    }
  }

  // ---------- what is left of the old nodes ----------

  /** The elements of the old nodes from `lo` up to but not including `hi` that have not been moved away. */
  function Rest(olds: seq<Option<VNode>>, elms: seq<Elm>, lo: nat, hi: nat): seq<Elm>
    requires |olds| == |elms| && hi <= |elms|
    decreases hi - lo
  {
    if lo >= hi then []
    else (if olds[lo].Some? then [elms[lo]] else []) + Rest(olds, elms, lo + 1, hi)
  }

  lemma {:induction false} RestSplits(olds: seq<Option<VNode>>, elms: seq<Elm>, lo: nat, mid: nat, hi: nat)
    requires |olds| == |elms| && lo <= mid <= hi <= |elms|
    ensures Rest(olds, elms, lo, hi) == Rest(olds, elms, lo, mid) + Rest(olds, elms, mid, hi)
    decreases mid - lo
  {
    if lo < mid {
      RestSplits(olds, elms, lo + 1, mid, hi);
    }
  }

  lemma {:induction false} RestUnchanged(old1: seq<Option<VNode>>, old2: seq<Option<VNode>>, elms: seq<Elm>, lo: nat,
        hi: nat)
    requires |old1| == |old2| == |elms| && hi <= |elms| && forall i :: lo <= i < hi ==> old1[i] == old2[i]
    ensures Rest(old1, elms, lo, hi) == Rest(old2, elms, lo, hi)
    decreases hi - lo
  {
    if lo < hi {
      RestUnchanged(old1, old2, elms, lo + 1, hi);
      var rest, same := Rest(old1, elms, lo + 1, hi), old1[lo] == old2[lo];
      assert same && Rest(old1, elms, lo, hi) == if old1[lo].Some? then [elms[lo]] + rest else [] + rest;
    }
  }

  /** The rest around one node that has not been moved away. */
  lemma RestAround(olds: seq<Option<VNode>>, elms: seq<Elm>, lo: nat, i: nat, hi: nat)
    requires |olds| == |elms| && lo <= i < hi <= |elms| && olds[i].Some?
    ensures Rest(olds, elms, lo, hi) == Rest(olds, elms, lo, i) + ([elms[i]] + Rest(olds, elms, i + 1, hi))
  {
    RestSplits(olds, elms, lo, i, hi);
  }

  /** Moving a node away takes its element out of the rest. */
  lemma RestMoved(olds: seq<Option<VNode>>, elms: seq<Elm>, lo: nat, i: nat, hi: nat)
    requires |olds| == |elms| && lo <= i < hi <= |elms|
    ensures Rest(olds[i := None], elms, lo, hi) == Rest(olds, elms, lo, i) + Rest(olds, elms, i + 1, hi)
  {
    var moved := olds[i := None];
    RestSplits(moved, elms, lo, i, hi);
    RestUnchanged(olds, moved, elms, lo, i);
    RestUnchanged(olds, moved, elms, i + 1, hi);
  }

  // ---------- moves ----------

  /** `x` is moved in front of `s`. */
  lemma MovedLeft(a: seq<Elm>, s: Elm, m1: seq<Elm>, x: Elm, m2: seq<Elm>)
    requires Distinct(a + ([s] + m1) + [x] + m2)
    ensures x != s && Before(Without(a + ([s] + m1) + [x] + m2, x), x, Some(s)) == a + [x] + ([s] + (m1 + m2))
    ensures Distinct(a + [x] + ([s] + (m1 + m2)))
  {
    var d := a + ([s] + m1) + [x] + m2;
    DistinctParts(a + ([s] + m1), x, m2);
    WithoutOne(a + ([s] + m1), x, m2);
    assert a + ([s] + m1) + m2 == a + ([s] + (m1 + m2));
    assert d == a + [s] + (m1 + [x] + m2);
    DistinctParts(a, s, m1 + [x] + m2);
    BeforeRef(a, x, s, m1 + m2);
    assert a + ([x] + ([s] + (m1 + m2))) == a + [x] + ([s] + (m1 + m2));
    assert multiset(a + [x] + ([s] + (m1 + m2))) == multiset(d);
    assert s in a + ([s] + m1);
  }

  /** The first of what comes behind `e` is none of what comes before it. */
  lemma FirstBehind(front: seq<Elm>, e: Elm, c: seq<Elm>)
    requires Distinct(front + [e] + c) && c != []
    ensures c[0] !in front && c[0] != e
  {
    assert front + [e] + c == (front + [e]) + [c[0]] + c[1..];
    DistinctParts(front + [e], c[0], c[1..]);
    assert (front + [e])[|front|] == e;
  }

  /** What comes behind `e`, and that it is not `s`. */
  lemma NextBehind(front: seq<Elm>, e: Elm, c: seq<Elm>, s: Elm)
    requires Distinct(front + [e] + c) && s in front
    ensures NextAfter(front + [e] + c, e) == if c == [] then None else Some(c[0])
    ensures c != [] ==> c[0] != s && c[0] !in front && c[0] != e
  {
    DistinctParts(front, e, c);
    Regroup(front, [e], c);
    NextAfterOne(front, e, c);
    if c != [] {
      FirstBehind(front, e, c);
    }
  }

  /** Put before the first of `c`, or at the end if there is none: just in front of `c`. */
  lemma BeforeRest(behind: seq<Elm>, s: Elm, c: seq<Elm>)
    requires c != [] ==> c[0] !in behind
    ensures Before(behind + c, s, if c == [] then None else Some(c[0])) == behind + ([s] + c)
  {
    if c == [] {
      assert behind + c == behind && [s] + c == [s];
      BeforeNone(behind, s);
    } else {
      assert [c[0]] + c[1..] == c;
      BeforeRef(behind, s, c[0], c[1..]);
    }
  }

  lemma TakenOut(a: seq<Elm>, s: Elm, m: seq<Elm>, c: seq<Elm>)
    requires Distinct(a + [s] + m + c)
    ensures Without(a + [s] + m + c, s) == a + m + c
  {
    Regroup(a + [s], m, c);
    DistinctParts(a, s, m + c);
    WithoutOne(a, s, m + c);
    Regroup(a, m, c);
  }

  /** `s` is moved behind `e`. */
  lemma MovedRight(a: seq<Elm>, s: Elm, m: seq<Elm>, e: Elm, c: seq<Elm>)
    requires Distinct(a + [s] + (m + [e]) + c)
    ensures var d, next := a + [s] + (m + [e]) + c, if c == [] then None else Some(c[0]);
      NextAfter(d, e) == next && next != Some(s) && Before(Without(d, s), s, next) == a + (m + [e]) + ([s] + c)
    ensures Distinct(a + (m + [e]) + ([s] + c))
  {
    Regroup(a + [s], m, [e]);
    NextBehind(a + [s] + m, e, c, s);
    TakenOut(a, s, m + [e], c);
    Regroup(a, m, [e]);
    BeforeRest(a + (m + [e]), s, c);
    MovedMultiset(a, s, m + [e], c);
  }

  lemma MovedMultiset(a: seq<Elm>, s: Elm, m: seq<Elm>, c: seq<Elm>)
    requires Distinct(a + [s] + m + c)
    ensures Distinct(a + m + ([s] + c))
  {
    assert multiset(a + m + ([s] + c)) == multiset(a + [s] + m + c);
  }

  /** A new element `x` is put in front of `s`. */
  lemma PutLeft(a: seq<Elm>, x: Elm, s: Elm, m: seq<Elm>)
    requires Distinct(a + ([s] + m)) && x !in a + ([s] + m)
    ensures Before(a + ([s] + m), x, Some(s)) == a + [x] + ([s] + m)
    ensures Distinct(a + [x] + ([s] + m))
  {
    assert a + ([s] + m) == a + [s] + m;
    DistinctParts(a, s, m);
    BeforeRef(a, x, s, m);
    assert a + ([x] + ([s] + m)) == a + [x] + ([s] + m);
    assert multiset(a + [x] + ([s] + m)) == multiset(a + ([s] + m)) + multiset{x};
  }

  // ---------- what is claimed ----------

  predicate UniqueKeys(vs: seq<VNode>) {
    forall i, j :: 0 <= i < j < |vs| && vs[i].key.Some? ==> vs[i].key != vs[j].key
  }

  /** New node `i` has been dealt with. */
  predicate Done(ns: int, ne: int, i: int) {
    i < ns || i >= ne
  }

  /** The element of old node `j` has been given to a new node. */
  predicate Used(current: seq<Option<VNode>>, os: int, oe: int, j: int) {
    0 <= j < |current| && (j < os || j >= oe || current[j].None?)
  }

  /** New node `i` has the element that its entry in `from` says: that of an old node that is the same, or a new one. */
  ghost predicate Claim(olds: seq<VNode>, oldElms: seq<Elm>, news: seq<VNode>, newElms: seq<Elm>,
        from: seq<Option<nat>>, first: Elm, i: nat)
    requires |olds| == |oldElms| && |news| == |newElms| == |from| && i < |news|
  {
    && (from[i].None? ==> newElms[i] >= first)
    && (from[i].Some? ==>
      from[i].value < |olds| && SameVnode(olds[from[i].value], news[i]) && newElms[i] == oldElms[from[i].value])
    && (news[i].key.Some? ==> forall j :: 0 <= j < |olds| && SameVnode(olds[j], news[i]) ==> from[i] == Some(j))
  }

  /** Which new node an old node's element has been given to. */
  ghost predicate Given(news: seq<VNode>, from: seq<Option<nat>>, to: seq<nat>, ns: int, ne: int, j: nat)
    requires |news| == |from| && j < |to|
  {
    to[j] < |news| && Done(ns, ne, to[j]) && from[to[j]] == Some(j)
  }

  ghost predicate Claims(olds: seq<VNode>, oldElms: seq<Elm>, news: seq<VNode>, newElms: seq<Elm>,
        from: seq<Option<nat>>, to: seq<nat>,
      first: Elm, current: seq<Option<VNode>>, os: int, oe: int, ns: int, ne: int)
  {
    && |olds| == |oldElms| == |to| == |current| && |news| == |newElms| == |from|
    && (forall i :: 0 <= i < |news| && Done(ns, ne, i) ==> Claim(olds, oldElms, news, newElms, from, first, i))
    && (forall j :: Used(current, os, oe, j) ==> Given(news, from, to, ns, ne, j))
  }

  /** An old node that is the same as a keyed new node not yet dealt with has not been used. */
  lemma PartnerUnused(olds: seq<VNode>, oldElms: seq<Elm>, news: seq<VNode>, newElms: seq<Elm>, from: seq<Option<nat>>,
        to: seq<nat>,
      first: Elm, current: seq<Option<VNode>>, os: int, oe: int, ns: int, ne: int, i: nat, j: nat)
    requires Claims(olds, oldElms, news, newElms, from, to, first, current, os, oe, ns, ne) && UniqueKeys(news)
    requires i < |news| && !Done(ns, ne, i) && news[i].key.Some? && j < |olds| && olds[j].key == news[i].key
    ensures !Used(current, os, oe, j)
  {
    if Used(current, os, oe, j) {
      UsedKey(olds, oldElms, news, newElms, from, to, first, current, os, oe, ns, ne, j);
    }
  }

  /** The new node that a used old node's element has been given to has the same key. */
  lemma UsedKey(olds: seq<VNode>, oldElms: seq<Elm>, news: seq<VNode>, newElms: seq<Elm>, from: seq<Option<nat>>,
        to: seq<nat>,
      first: Elm, current: seq<Option<VNode>>, os: int, oe: int, ns: int, ne: int, j: nat)
    requires Claims(olds, oldElms, news, newElms, from, to, first, current, os, oe, ns, ne) && Used(current, os, oe, j)
    ensures to[j] < |news| && Done(ns, ne, to[j]) && news[to[j]].key == olds[j].key
  {
    assert Given(news, from, to, ns, ne, j);
    assert Claim(olds, oldElms, news, newElms, from, first, to[j]);
  }

  /** New node `i` is given the element of old node `j`. */
  lemma ClaimOne(olds: seq<VNode>, oldElms: seq<Elm>, news: seq<VNode>, newElms: seq<Elm>, from: seq<Option<nat>>,
        to: seq<nat>,
      first: Elm, current: seq<Option<VNode>>, os: int, oe: int, ns: int, ne: int,
      current': seq<Option<VNode>>, os': int, oe': int, ns': int, ne': int, i: nat, j: nat)
    requires Claims(olds, oldElms, news, newElms, from, to, first, current, os, oe, ns, ne) && UniqueKeys(olds)
    requires i < |news| && j < |olds| && SameVnode(olds[j], news[i]) && !Done(ns, ne, i) && |current'| == |current|
    requires forall x :: 0 <= x < |news| ==> (Done(ns', ne', x) <==> Done(ns, ne, x) || x == i)
    requires forall y :: 0 <= y < |olds| ==> (Used(current', os', oe', y) <==> Used(current, os, oe, y) || y == j)
    requires !Used(current, os, oe, j)
    ensures Claims(olds, oldElms, news, newElms[i := oldElms[j]], from[i := Some(j)], to[j := i], first, current', os',
      oe', ns', ne')
  {
    forall x | 0 <= x < |news| && Done(ns', ne', x)
      ensures Claim(olds, oldElms, news, newElms[i := oldElms[j]], from[i := Some(j)], first, x)
    {
      if x != i {
        assert Claim(olds, oldElms, news, newElms, from, first, x);
      }
    }
    forall y | Used(current', os', oe', y)
      ensures Given(news, from[i := Some(j)], to[j := i], ns', ne', y)
    {
      if y != j {
        assert Given(news, from, to, ns, ne, y);
      }
    }
  }

  /** The first new node left is given the first old one left. */
  lemma ClaimFirst(olds: seq<VNode>, oldElms: seq<Elm>, news: seq<VNode>, newElms: seq<Elm>, from: seq<Option<nat>>,
        to: seq<nat>,
      first: Elm, current: seq<Option<VNode>>, os: int, oe: int, ns: int, ne: int)
    requires Claims(olds, oldElms, news, newElms, from, to, first, current, os, oe, ns, ne) && UniqueKeys(olds)
    requires 0 <= os < oe <= |olds| && 0 <= ns < ne <= |news| && current[os].Some? && SameVnode(olds[os], news[ns])
    ensures Claims(olds, oldElms, news, newElms[ns := oldElms[os]], from[ns := Some(os)], to[os := ns], first, current,
      os + 1, oe, ns + 1, ne)
  {
    ClaimOne(olds, oldElms, news, newElms, from, to, first, current, os, oe, ns, ne, current, os + 1, oe, ns + 1, ne,
      ns, os);
  }

  /** The last new node left is given the last old one left. */
  lemma ClaimLast(olds: seq<VNode>, oldElms: seq<Elm>, news: seq<VNode>, newElms: seq<Elm>, from: seq<Option<nat>>,
        to: seq<nat>,
      first: Elm, current: seq<Option<VNode>>, os: int, oe: int, ns: int, ne: int)
    requires Claims(olds, oldElms, news, newElms, from, to, first, current, os, oe, ns, ne) && UniqueKeys(olds)
    requires 0 <= os < oe <= |olds| && 0 <= ns < ne <= |news| && current[oe - 1].Some?
    requires SameVnode(olds[oe - 1], news[ne - 1])
    ensures Claims(olds, oldElms, news, newElms[ne - 1 := oldElms[oe - 1]], from[ne - 1 := Some(oe - 1)],
      to[oe - 1 := ne - 1], first, current, os, oe - 1, ns, ne - 1)
  {
    ClaimOne(olds, oldElms, news, newElms, from, to, first, current, os, oe, ns, ne, current, os, oe - 1, ns, ne - 1,
      ne - 1, oe - 1);
  }

  /** The last new node left is given the first old one left. */
  lemma ClaimAcross(olds: seq<VNode>, oldElms: seq<Elm>, news: seq<VNode>, newElms: seq<Elm>, from: seq<Option<nat>>,
        to: seq<nat>,
      first: Elm, current: seq<Option<VNode>>, os: int, oe: int, ns: int, ne: int)
    requires Claims(olds, oldElms, news, newElms, from, to, first, current, os, oe, ns, ne) && UniqueKeys(olds)
    requires 0 <= os < oe <= |olds| && 0 <= ns < ne <= |news| && current[os].Some? && SameVnode(olds[os], news[ne - 1])
    ensures Claims(olds, oldElms, news, newElms[ne - 1 := oldElms[os]], from[ne - 1 := Some(os)], to[os := ne - 1],
      first, current, os + 1, oe, ns, ne - 1)
  {
    ClaimOne(olds, oldElms, news, newElms, from, to, first, current, os, oe, ns, ne, current, os + 1, oe, ns, ne - 1,
      ne - 1, os);
  }

  /** The first new node left is given the last old one left. */
  lemma ClaimBack(olds: seq<VNode>, oldElms: seq<Elm>, news: seq<VNode>, newElms: seq<Elm>, from: seq<Option<nat>>,
        to: seq<nat>,
      first: Elm, current: seq<Option<VNode>>, os: int, oe: int, ns: int, ne: int)
    requires Claims(olds, oldElms, news, newElms, from, to, first, current, os, oe, ns, ne) && UniqueKeys(olds)
    requires 0 <= os < oe <= |olds| && 0 <= ns < ne <= |news| && current[oe - 1].Some?
    requires SameVnode(olds[oe - 1], news[ns])
    ensures Claims(olds, oldElms, news, newElms[ns := oldElms[oe - 1]], from[ns := Some(oe - 1)], to[oe - 1 := ns],
      first, current, os, oe - 1, ns + 1, ne)
  {
    ClaimOne(olds, oldElms, news, newElms, from, to, first, current, os, oe, ns, ne, current, os, oe - 1, ns + 1, ne,
      ns, oe - 1);
  }

  /** The first new node left is given an old one from among those left, which leaves a gap. */
  lemma ClaimKeyed(olds: seq<VNode>, oldElms: seq<Elm>, news: seq<VNode>, newElms: seq<Elm>, from: seq<Option<nat>>,
        to: seq<nat>,
      first: Elm, current: seq<Option<VNode>>, os: int, oe: int, ns: int, ne: int, j: int)
    requires Claims(olds, oldElms, news, newElms, from, to, first, current, os, oe, ns, ne) && UniqueKeys(olds)
    requires 0 <= os < oe <= |olds| && 0 <= ns < ne <= |news| && os <= j < oe && current[j].Some?
    requires SameVnode(olds[j], news[ns])
    ensures Claims(olds, oldElms, news, newElms[ns := oldElms[j]], from[ns := Some(j)], to[j := ns], first,
      current[j := None], os, oe, ns + 1, ne)
  {
    ClaimOne(olds, oldElms, news, newElms, from, to, first, current, os, oe, ns, ne, current[j := None], os, oe, ns + 1,
      ne, ns, j);
  }

  /** New node `i` is given a new element: no old node is the same. */
  lemma ClaimNew(olds: seq<VNode>, oldElms: seq<Elm>, news: seq<VNode>, newElms: seq<Elm>, from: seq<Option<nat>>,
        to: seq<nat>,
      first: Elm, current: seq<Option<VNode>>, os: int, oe: int, ns: int, ne: int, ns': int, i: nat, e: Elm)
    requires Claims(olds, oldElms, news, newElms, from, to, first, current, os, oe, ns, ne)
    requires i < |news| && i == ns < ne && ns' == ns + 1 && e >= first
    requires news[i].key.Some? ==> forall j :: 0 <= j < |olds| ==> !SameVnode(olds[j], news[i])
    ensures Claims(olds, oldElms, news, newElms[i := e], from[i := None], to, first, current, os, oe, ns', ne)
  {
    forall x | 0 <= x < |news| && Done(ns', ne, x)
      ensures Claim(olds, oldElms, news, newElms[i := e], from[i := None], first, x)
    {
      if x != i {
        assert Claim(olds, oldElms, news, newElms, from, first, x);
      }
    }
    forall y | Used(current, os, oe, y)
      ensures Given(news, from[i := None], to, ns', ne, y)
    {
      assert Given(news, from, to, ns, ne, y);
    }
  }

  // ---------- where the elements are ----------

  /** The children: those of the new nodes dealt with in front, what is left of the old ones, those dealt with
      behind. */
  ghost predicate Layout(children: seq<Elm>, nextElm: Elm, newElms: seq<Elm>, current: seq<Option<VNode>>,
        oldElms: seq<Elm>,
      os: int, oe: int, ns: int, ne: int)
  {
    && |current| == |oldElms| && 0 <= os <= oe <= |oldElms| && 0 <= ns <= ne <= |newElms|
    && children == newElms[..ns] + Rest(current, oldElms, os, oe) + newElms[ne..]
    && Distinct(children) && forall e :: e in children ==> e < nextElm
  }

  lemma PutInFront(newElms: seq<Elm>, ns: nat, ne: nat, e: Elm)
    requires ns < ne <= |newElms|
    ensures newElms[ns := e][..ns + 1] == newElms[..ns] + [e] && newElms[ns := e][ne..] == newElms[ne..]
  {
  }

  lemma PutBehind(newElms: seq<Elm>, ns: nat, ne: nat, e: Elm)
    requires ns < ne <= |newElms|
    ensures newElms[ne - 1 := e][..ns] == newElms[..ns] && newElms[ne - 1 := e][ne - 1..] == [e] + newElms[ne..]
  {
  }

  lemma LayoutSkipStart(children: seq<Elm>, nextElm: Elm, newElms: seq<Elm>, current: seq<Option<VNode>>,
        oldElms: seq<Elm>,
      os: int, oe: int, ns: int, ne: int)
    requires Layout(children, nextElm, newElms, current, oldElms, os, oe, ns, ne) && os < oe && current[os].None?
    ensures Layout(children, nextElm, newElms, current, oldElms, os + 1, oe, ns, ne)
  {
  }

  lemma LayoutSkipEnd(children: seq<Elm>, nextElm: Elm, newElms: seq<Elm>, current: seq<Option<VNode>>,
        oldElms: seq<Elm>,
      os: int, oe: int, ns: int, ne: int)
    requires Layout(children, nextElm, newElms, current, oldElms, os, oe, ns, ne) && os < oe && current[oe - 1].None?
    ensures Layout(children, nextElm, newElms, current, oldElms, os, oe - 1, ns, ne)
  {
    RestSplits(current, oldElms, os, oe - 1, oe);
    assert Rest(current, oldElms, oe - 1, oe) == [] + Rest(current, oldElms, oe, oe);
  }

  lemma LayoutTakeStart(children: seq<Elm>, nextElm: Elm, newElms: seq<Elm>, current: seq<Option<VNode>>,
        oldElms: seq<Elm>,
      os: int, oe: int, ns: int, ne: int)
    requires Layout(children, nextElm, newElms, current, oldElms, os, oe, ns, ne) && os < oe && ns < ne
    requires current[os].Some?
    ensures Layout(children, nextElm, newElms[ns := oldElms[os]], current, oldElms, os + 1, oe, ns + 1, ne)
  {
    PutInFront(newElms, ns, ne, oldElms[os]);
    Regroup(newElms[..ns], [oldElms[os]], Rest(current, oldElms, os + 1, oe));
  }

  /** What is left of the old nodes, the last of them by itself. */
  lemma RestLast(current: seq<Option<VNode>>, oldElms: seq<Elm>, os: nat, oe: nat)
    requires |current| == |oldElms| && os < oe <= |oldElms| && current[oe - 1].Some?
    ensures Rest(current, oldElms, os, oe) == Rest(current, oldElms, os, oe - 1) + [oldElms[oe - 1]]
  {
    RestSplits(current, oldElms, os, oe - 1, oe);
    assert Rest(current, oldElms, oe - 1, oe) == [oldElms[oe - 1]] + Rest(current, oldElms, oe, oe);
  }

  lemma LayoutTakeEnd(children: seq<Elm>, nextElm: Elm, newElms: seq<Elm>, current: seq<Option<VNode>>,
        oldElms: seq<Elm>,
      os: int, oe: int, ns: int, ne: int)
    requires Layout(children, nextElm, newElms, current, oldElms, os, oe, ns, ne) && os < oe && ns < ne
    requires current[oe - 1].Some?
    ensures Layout(children, nextElm, newElms[ne - 1 := oldElms[oe - 1]], current, oldElms, os, oe - 1, ns, ne - 1)
  {
    PutBehind(newElms, ns, ne, oldElms[oe - 1]);
    RestLast(current, oldElms, os, oe);
    Regroup(newElms[..ns], Rest(current, oldElms, os, oe - 1), [oldElms[oe - 1]]);
    Regroup(newElms[..ns] + Rest(current, oldElms, os, oe - 1), [oldElms[oe - 1]], newElms[ne..]);
  }

  /** The first old node left is moved behind the last. */
  lemma LayoutMoveRight(children: seq<Elm>, nextElm: Elm, newElms: seq<Elm>, current: seq<Option<VNode>>,
        oldElms: seq<Elm>,
      os: int, oe: int, ns: int, ne: int)
    requires Layout(children, nextElm, newElms, current, oldElms, os, oe, ns, ne)
    requires os < oe - 1 && ns < ne && current[os].Some? && current[oe - 1].Some?
    ensures var next := NextAfter(children, oldElms[oe - 1]);
      next != Some(oldElms[os]) &&
      Layout(Before(Without(children, oldElms[os]), oldElms[os], next), nextElm, newElms[ne - 1 := oldElms[os]],
        current, oldElms, os + 1, oe, ns, ne - 1)
  {
    var a, s, e, c := newElms[..ns], oldElms[os], oldElms[oe - 1], newElms[ne..];
    var m := Rest(current, oldElms, os + 1, oe - 1);
    RestLast(current, oldElms, os + 1, oe);
    Regroup(a, [s], m + [e]);
    PutBehind(newElms, ns, ne, s);
    MovedRight(a, s, m, e, c);
    assert s in a + [s] + (m + [e]) + c;
    MovedWithin(children, s, NextAfter(children, e));
  }

  /** Old node `j` is moved in front of the first old node left. */
  lemma LayoutMoveLeft(children: seq<Elm>, nextElm: Elm, newElms: seq<Elm>, current: seq<Option<VNode>>,
        oldElms: seq<Elm>,
      os: int, oe: int, ns: int, ne: int, j: int)
    requires Layout(children, nextElm, newElms, current, oldElms, os, oe, ns, ne)
    requires os < j < oe && ns < ne && current[os].Some? && current[j].Some?
    ensures oldElms[j] != oldElms[os]
    ensures Layout(Before(Without(children, oldElms[j]), oldElms[j], Some(oldElms[os])), nextElm,
      newElms[ns := oldElms[j]],
      current[j := None], oldElms, os, oe, ns + 1, ne)
  {
    var a, s, x, c := newElms[..ns], oldElms[os], oldElms[j], newElms[ne..];
    var m1, m2 := Rest(current, oldElms, os + 1, j), Rest(current, oldElms, j + 1, oe);
    RestAround(current, oldElms, os, j, oe);
    RestMoved(current, oldElms, os, j, oe);
    assert Rest(current, oldElms, os, j) == [s] + m1;
    LeftForm(a, s, m1, x, m2, c);
    PutInFront(newElms, ns, ne, x);
    MovedLeft(a, s, m1, x, m2 + c);
    assert x in a + ([s] + m1) + [x] + (m2 + c);
    MovedWithin(children, x, Some(s));
  }

  lemma LeftForm(a: seq<Elm>, s: Elm, m1: seq<Elm>, x: Elm, m2: seq<Elm>, c: seq<Elm>)
    ensures a + (([s] + m1) + ([x] + m2)) + c == a + ([s] + m1) + [x] + (m2 + c)
    ensures a + [x] + (([s] + m1) + m2) + c == a + [x] + ([s] + (m1 + (m2 + c)))
  {
  }

  /** The last old node left, moved away, need not be kept as a gap. */
  lemma LayoutDropGap(children: seq<Elm>, nextElm: Elm, newElms: seq<Elm>, current: seq<Option<VNode>>,
        oldElms: seq<Elm>,
      os: int, oe: int, ns: int, ne: int)
    requires 0 <= os < oe <= |current|
    requires Layout(children, nextElm, newElms, current[oe - 1 := None], oldElms, os, oe, ns, ne)
    ensures Layout(children, nextElm, newElms, current, oldElms, os, oe - 1, ns, ne)
  {
    LayoutSkipEnd(children, nextElm, newElms, current[oe - 1 := None], oldElms, os, oe, ns, ne);
    RestUnchanged(current, current[oe - 1 := None], oldElms, os, oe - 1);
  }

  /** The last old node left is moved in front of the first. */
  lemma LayoutMoveLast(children: seq<Elm>, nextElm: Elm, newElms: seq<Elm>, current: seq<Option<VNode>>,
        oldElms: seq<Elm>,
      os: int, oe: int, ns: int, ne: int)
    requires Layout(children, nextElm, newElms, current, oldElms, os, oe, ns, ne)
    requires os < oe - 1 && ns < ne && current[os].Some? && current[oe - 1].Some?
    ensures oldElms[oe - 1] != oldElms[os]
    ensures Layout(Before(Without(children, oldElms[oe - 1]), oldElms[oe - 1], Some(oldElms[os])), nextElm,
      newElms[ns := oldElms[oe - 1]],
      current, oldElms, os, oe - 1, ns + 1, ne)
  {
    LayoutMoveLeft(children, nextElm, newElms, current, oldElms, os, oe, ns, ne, oe - 1);
    LayoutDropGap(Before(Without(children, oldElms[oe - 1]), oldElms[oe - 1], Some(oldElms[os])), nextElm,
      newElms[ns := oldElms[oe - 1]],
      current, oldElms, os, oe, ns + 1, ne);
  }

  /** A new element is put in front of the first old node left. */
  lemma LayoutCreate(children: seq<Elm>, nextElm: Elm, newElms: seq<Elm>, current: seq<Option<VNode>>,
        oldElms: seq<Elm>,
      os: int, oe: int, ns: int, ne: int)
    requires Layout(children, nextElm, newElms, current, oldElms, os, oe, ns, ne) && os < oe && ns < ne
    requires current[os].Some?
    ensures Layout(Before(children, nextElm, Some(oldElms[os])), nextElm + 1, newElms[ns := nextElm], current, oldElms,
      os, oe, ns + 1, ne)
  {
    var a, s, c := newElms[..ns], oldElms[os], newElms[ne..];
    var m := Rest(current, oldElms, os + 1, oe);
    Regroup(a, [s] + m, c);
    Regroup([s], m, c);
    PutInFront(newElms, ns, ne, nextElm);
    PutLeft(a, nextElm, s, m + c);
    Regroup(a + [nextElm], [s] + m, c);
    BeforeWithin(children, nextElm, Some(s));
  }

  /** A new element is added in front of those dealt with at the end. */
  lemma LayoutAdd(children: seq<Elm>, nextElm: Elm, newElms: seq<Elm>, current: seq<Option<VNode>>, oldElms: seq<Elm>,
      os: int, ns: int, ne: int)
    requires Layout(children, nextElm, newElms, current, oldElms, os, os, ns, ne) && ns < ne
    ensures var ref := if ne == |newElms| then None else Some(newElms[ne]);
      Layout(Before(children, nextElm, ref), nextElm + 1, newElms[ns := nextElm], current, oldElms, os, os, ns + 1, ne)
  {
    var a, c, ref := newElms[..ns], newElms[ne..], if ne == |newElms| then None else Some(newElms[ne]);
    assert a + Rest(current, oldElms, os, os) == a;
    PutInFront(newElms, ns, ne, nextElm);
    AddedInGap(a, nextElm, c);
    assert a + [nextElm] + Rest(current, oldElms, os, os) == a + [nextElm];
    BeforeWithin(children, nextElm, ref);
  }

  lemma AddedInGap(a: seq<Elm>, e: Elm, c: seq<Elm>)
    requires Distinct(a + c) && e !in a + c
    ensures Before(a + c, e, if c == [] then None else Some(c[0])) == a + [e] + c
    ensures Distinct(a + [e] + c)
  {
    if c != [] {
      assert a + c == a + [c[0]] + c[1..];
      DistinctParts(a, c[0], c[1..]);
    }
    BeforeRest(a, e, c);
    Regroup(a, [e], c);
    DistinctMore(a, e, c);
  }

  lemma DistinctMore(a: seq<Elm>, e: Elm, c: seq<Elm>)
    requires Distinct(a + c) && e !in a + c
    ensures Distinct(a + [e] + c)
  {
    assert multiset(a + [e] + c) == multiset(a + c) + multiset{e};
  }

  lemma RemovedFirst(a: seq<Elm>, s: Elm, m: seq<Elm>, c: seq<Elm>)
    requires Distinct(a + ([s] + m) + c)
    ensures Without(a + ([s] + m) + c, s) == a + m + c && Distinct(a + m + c)
  {
    Regroup(a, [s], m);
    TakenOut(a, s, m, c);
    assert multiset(a + [s] + m + c) == multiset(a + m + c) + multiset{s};
    forall e
      ensures multiset(a + m + c)[e] <= 1
    {
      assert multiset(a + [s] + m + c)[e] == multiset(a + m + c)[e] + multiset{s}[e];
    }
  }

  /** The first old node left is removed. */
  lemma LayoutRemove(children: seq<Elm>, nextElm: Elm, newElms: seq<Elm>, current: seq<Option<VNode>>,
        oldElms: seq<Elm>,
      os: int, oe: int, ns: int, ne: int)
    requires Layout(children, nextElm, newElms, current, oldElms, os, oe, ns, ne) && os < oe && current[os].Some?
    ensures Layout(Without(children, oldElms[os]), nextElm, newElms, current, oldElms, os + 1, oe, ns, ne)
  {
    RemovedFirst(newElms[..ns], oldElms[os], Rest(current, oldElms, os + 1, oe), newElms[ne..]);
    WithoutWithin(children, oldElms[os]);
  }

  // ---------- the pass ----------

  /** A key's old index: of several old nodes with the same key, the last.  The name that cannot be entered is not. */
  method CreateKeyToOldIdx(children: seq<Option<VNode>>, begin: nat, end: nat) returns (m: map<string, nat>)
    requires end <= |children| && forall i :: begin <= i < end ==> children[i].Some?
    ensures forall k :: k in m ==> begin <= m[k] < end && children[m[k]].value.key == Some(k) && k != PROTO
    ensures forall i :: begin <= i < end && Enterable(children[i].value) ==>
      children[i].value.key.value in m && i <= m[children[i].value.key.value]
  {
    m := map[];
    var i := begin;
    while i < end
      invariant begin <= i && (i <= end || i == begin)
      invariant forall k :: k in m ==> begin <= m[k] < i && children[m[k]].value.key == Some(k) && k != PROTO
      invariant forall j :: begin <= j < i && j < end && Enterable(children[j].value) ==>
        children[j].value.key.value in m && j <= m[children[j].value.key.value]
    {
      var key := children[i].value.key;
      if key.Some? && key.value != PROTO {
        m := m[key.value := i];
      }
      i := i + 1;
    }
  }

  predicate Enterable(node: VNode) {
    node.key.Some? && node.key.value != PROTO
  }

  /** The table of keys finds every old node not used; before it is made, none is missing. */
  ghost predicate KeysFit(olds: seq<VNode>, current: seq<Option<VNode>>, keys: Option<map<string, nat>>, os: int,
        oe: int)
    requires |olds| == |current|
  {
    && (keys.None? ==> forall j :: 0 <= j < |olds| ==> current[j].Some?)
    && (keys.Some? ==> forall k :: k in keys.value ==>
      keys.value[k] < |olds| && olds[keys.value[k]].key == Some(k) && k != PROTO)
    && (keys.Some? ==> forall j :: 0 <= j < |olds| && !Used(current, os, oe, j) && Enterable(olds[j]) ==>
      olds[j].key.value in keys.value && keys.value[olds[j].key.value] == j)
  }

  /** All that holds in the course of the pass. */
  ghost predicate Passing(olds: seq<VNode>, oldElms: seq<Elm>, news: seq<VNode>, first: Elm, children: seq<Elm>,
        nextElm: Elm,
      newElms: seq<Elm>, from: seq<Option<nat>>, to: seq<nat>, current: seq<Option<VNode>>,
        keys: Option<map<string, nat>>,
      os: int, oe: int, ns: int, ne: int)
  {
    && UniqueKeys(olds) && UniqueKeys(news) && first <= nextElm
    && Layout(children, nextElm, newElms, current, oldElms, os, oe, ns, ne)
    && Claims(olds, oldElms, news, newElms, from, to, first, current, os, oe, ns, ne)
    && (forall j :: 0 <= j < |current| && current[j].Some? ==> current[j].value == olds[j])
    && KeysFit(olds, current, keys, os, oe)
  }

  /** With fewer old nodes left, the table of keys still finds those not used. */
  lemma KeysStillFit(olds: seq<VNode>, current: seq<Option<VNode>>, keys: Option<map<string, nat>>, os: int, oe: int,
        os': int, oe': int)
    requires |olds| == |current| && KeysFit(olds, current, keys, os, oe) && os <= os' && oe' <= oe
    ensures KeysFit(olds, current, keys, os', oe')
  {
  }

  /** The pass is under way, whichever elements have been given to which nodes. */
  ghost predicate Underway(olds: seq<VNode>, oldElms: seq<Elm>, news: seq<VNode>, first: Elm, children: seq<Elm>,
        nextElm: Elm,
      newElms: seq<Elm>, current: seq<Option<VNode>>, keys: Option<map<string, nat>>, os: int, oe: int, ns: int,
        ne: int)
  {
    exists from, to ::
      Passing(olds, oldElms, news, first, children, nextElm, newElms, from, to, current, keys, os, oe, ns, ne)
  }

  /** The sizes and bounds that hold all the way. */
  lemma Bounds(olds: seq<VNode>, oldElms: seq<Elm>, news: seq<VNode>, first: Elm, children: seq<Elm>, nextElm: Elm,
      newElms: seq<Elm>, current: seq<Option<VNode>>, keys: Option<map<string, nat>>, os: int, oe: int, ns: int,
        ne: int)
    requires Underway(olds, oldElms, news, first, children, nextElm, newElms, current, keys, os, oe, ns, ne)
    ensures |olds| == |oldElms| == |current| && |news| == |newElms| && 0 <= os <= oe <= |olds|
    ensures 0 <= ns <= ne <= |news|
    ensures os < oe ==>
      (current[os].Some? ==> current[os].value == olds[os])
        && (current[oe - 1].Some? ==> current[oe - 1].value == olds[oe - 1])
  {
  }

  /** An old node with the key of `v` is where the table says it is, and there to be moved. */
  ghost predicate TableFinds(olds: seq<VNode>, current: seq<Option<VNode>>, keys: map<string, nat>, os: int, oe: int,
        v: VNode) {
    && |olds| == |current| && 0 <= os <= oe <= |olds|
    && (v.key.Some? && v.key.value in keys ==>
      os <= keys[v.key.value] < oe && current[keys[v.key.value]] == Some(olds[keys[v.key.value]]))
    && (v.key.Some? && v.key.value in keys ==> olds[keys[v.key.value]].key == v.key && v.key.value != PROTO)
    && (Enterable(v) ==> forall j :: 0 <= j < |olds| && olds[j].key == v.key ==>
      v.key.value in keys && keys[v.key.value] == j)
  }

  /** The table of keys finds the old node for a new node not yet dealt with. */
  lemma KeyFound(olds: seq<VNode>, oldElms: seq<Elm>, news: seq<VNode>, first: Elm, children: seq<Elm>, nextElm: Elm,
      newElms: seq<Elm>, current: seq<Option<VNode>>, keys: map<string, nat>, os: int, oe: int, ns: int, ne: int)
    requires Underway(olds, oldElms, news, first, children, nextElm, newElms, current, Some(keys), os, oe, ns, ne)
    requires 0 <= ns < ne <= |news|
    ensures TableFinds(olds, current, keys, os, oe, news[ns])
  {
    if news[ns].key.None? {
      return;
    }
    var from, to :| Passing(olds, oldElms, news, first, children, nextElm, newElms, from, to, current, Some(keys), os,
      oe, ns, ne);
    var k := news[ns].key.value;
    forall j | 0 <= j < |olds| && olds[j].key == news[ns].key && k != PROTO
      ensures k in keys && keys[k] == j
    {
      PartnerUnused(olds, oldElms, news, newElms, from, to, first, current, os, oe, ns, ne, ns, j);
    }
    if k in keys {
      PartnerUnused(olds, oldElms, news, newElms, from, to, first, current, os, oe, ns, ne, ns, keys[k]);
    }
  }

  lemma KeysMade(olds: seq<VNode>, oldElms: seq<Elm>, news: seq<VNode>, first: Elm, children: seq<Elm>, nextElm: Elm,
      newElms: seq<Elm>, current: seq<Option<VNode>>, os: int, oe: int, ns: int, ne: int, m: map<string, nat>)
    requires Underway(olds, oldElms, news, first, children, nextElm, newElms, current, None, os, oe, ns, ne)
    requires 0 <= os <= oe <= |current| && forall j :: os <= j < oe ==> current[j].Some?
    requires forall k :: k in m ==> os <= m[k] < oe && current[m[k]].value.key == Some(k) && k != PROTO
    requires forall i :: os <= i < oe && Enterable(current[i].value) ==>
      current[i].value.key.value in m && i <= m[current[i].value.key.value]
    ensures Underway(olds, oldElms, news, first, children, nextElm, newElms, current, Some(m), os, oe, ns, ne)
  {
    var from, to :| Passing(olds, oldElms, news, first, children, nextElm, newElms, from, to, current, None, os, oe, ns,
      ne);
    KeysFitMade(olds, current, os, oe, m);
    assert Passing(olds, oldElms, news, first, children, nextElm, newElms, from, to, current, Some(m), os, oe, ns, ne);
  }

  lemma KeysFitMade(olds: seq<VNode>, current: seq<Option<VNode>>, os: int, oe: int, m: map<string, nat>)
    requires UniqueKeys(olds) && |olds| == |current| && 0 <= os <= oe <= |olds| && KeysFit(olds, current, None, os, oe)
    requires forall j :: 0 <= j < |current| && current[j].Some? ==> current[j].value == olds[j]
    requires forall k :: k in m ==> os <= m[k] < oe && current[m[k]].value.key == Some(k) && k != PROTO
    requires forall i :: os <= i < oe && Enterable(current[i].value) ==>
      current[i].value.key.value in m && i <= m[current[i].value.key.value]
    ensures KeysFit(olds, current, Some(m), os, oe)
  {
  }

  /** Before the table of keys is made no old node is missing. */
  lemma NoneMissing(olds: seq<VNode>, oldElms: seq<Elm>, news: seq<VNode>, first: Elm, children: seq<Elm>, nextElm: Elm,
      newElms: seq<Elm>, current: seq<Option<VNode>>, os: int, oe: int, ns: int, ne: int)
    requires Underway(olds, oldElms, news, first, children, nextElm, newElms, current, None, os, oe, ns, ne)
    ensures forall j :: 0 <= j < |current| ==> current[j].Some?
  {
  }

  lemma StepSkipFirst(olds: seq<VNode>, oldElms: seq<Elm>, news: seq<VNode>, first: Elm, children: seq<Elm>,
        nextElm: Elm,
      newElms: seq<Elm>, current: seq<Option<VNode>>, keys: Option<map<string, nat>>, os: int, oe: int, ns: int,
        ne: int)
    requires Underway(olds, oldElms, news, first, children, nextElm, newElms, current, keys, os, oe, ns, ne)
    requires 0 <= os < oe <= |current| && current[os].None?
    ensures Underway(olds, oldElms, news, first, children, nextElm, newElms, current, keys, os + 1, oe, ns, ne)
  {
    var from, to :| Passing(olds, oldElms, news, first, children, nextElm, newElms, from, to, current, keys, os, oe, ns,
      ne);
    LayoutSkipStart(children, nextElm, newElms, current, oldElms, os, oe, ns, ne);
    assert forall j :: Used(current, os + 1, oe, j) == Used(current, os, oe, j);
    assert Passing(olds, oldElms, news, first, children, nextElm, newElms, from, to, current, keys, os + 1, oe, ns, ne);
  }

  lemma StepSkipLast(olds: seq<VNode>, oldElms: seq<Elm>, news: seq<VNode>, first: Elm, children: seq<Elm>,
        nextElm: Elm,
      newElms: seq<Elm>, current: seq<Option<VNode>>, keys: Option<map<string, nat>>, os: int, oe: int, ns: int,
        ne: int)
    requires Underway(olds, oldElms, news, first, children, nextElm, newElms, current, keys, os, oe, ns, ne)
    requires 0 <= os < oe <= |current| && current[oe - 1].None?
    ensures Underway(olds, oldElms, news, first, children, nextElm, newElms, current, keys, os, oe - 1, ns, ne)
  {
    var from, to :| Passing(olds, oldElms, news, first, children, nextElm, newElms, from, to, current, keys, os, oe, ns,
      ne);
    LayoutSkipEnd(children, nextElm, newElms, current, oldElms, os, oe, ns, ne);
    assert forall j :: Used(current, os, oe - 1, j) == Used(current, os, oe, j);
    assert Passing(olds, oldElms, news, first, children, nextElm, newElms, from, to, current, keys, os, oe - 1, ns, ne);
  }

  /** An old and a new node that may be paired. */
  predicate Pair(olds: seq<VNode>, oldElms: seq<Elm>, news: seq<VNode>, newElms: seq<Elm>, current: seq<Option<VNode>>,
        j: int, i: int) {
    && 0 <= j < |olds| == |oldElms| == |current| && 0 <= i < |news| == |newElms|
    && current[j].Some? && SameVnode(olds[j], news[i])
  }

  /** The first old node left goes to the first new node left. */
  lemma StepTakeFirst(olds: seq<VNode>, oldElms: seq<Elm>, news: seq<VNode>, first: Elm, children: seq<Elm>,
        nextElm: Elm,
      newElms: seq<Elm>, current: seq<Option<VNode>>, keys: Option<map<string, nat>>, os: int, oe: int, ns: int,
        ne: int)
    requires Underway(olds, oldElms, news, first, children, nextElm, newElms, current, keys, os, oe, ns, ne)
    requires os < oe && ns < ne && Pair(olds, oldElms, news, newElms, current, os, ns)
    ensures Underway(olds, oldElms, news, first, children, nextElm, newElms[ns := oldElms[os]], current, keys, os + 1,
      oe, ns + 1, ne)
  {
    var from, to :| Passing(olds, oldElms, news, first, children, nextElm, newElms, from, to, current, keys, os, oe, ns,
      ne);
    LayoutTakeStart(children, nextElm, newElms, current, oldElms, os, oe, ns, ne);
    KeysStillFit(olds, current, keys, os, oe, os + 1, oe);
    ClaimFirst(olds, oldElms, news, newElms, from, to, first, current, os, oe, ns, ne);
    assert Passing(olds, oldElms, news, first, children, nextElm, newElms[ns := oldElms[os]], from[ns := Some(os)],
      to[os := ns],
        current, keys, os + 1, oe, ns + 1, ne);
  }

  /** The last old node left goes to the last new node left. */
  lemma StepTakeLast(olds: seq<VNode>, oldElms: seq<Elm>, news: seq<VNode>, first: Elm, children: seq<Elm>,
        nextElm: Elm,
      newElms: seq<Elm>, current: seq<Option<VNode>>, keys: Option<map<string, nat>>, os: int, oe: int, ns: int,
        ne: int)
    requires Underway(olds, oldElms, news, first, children, nextElm, newElms, current, keys, os, oe, ns, ne)
    requires os < oe && ns < ne && Pair(olds, oldElms, news, newElms, current, oe - 1, ne - 1)
    ensures Underway(olds, oldElms, news, first, children, nextElm, newElms[ne - 1 := oldElms[oe - 1]], current, keys,
      os, oe - 1, ns, ne - 1)
  {
    var from, to :| Passing(olds, oldElms, news, first, children, nextElm, newElms, from, to, current, keys, os, oe, ns,
      ne);
    LayoutTakeEnd(children, nextElm, newElms, current, oldElms, os, oe, ns, ne);
    KeysStillFit(olds, current, keys, os, oe, os, oe - 1);
    ClaimLast(olds, oldElms, news, newElms, from, to, first, current, os, oe, ns, ne);
    assert Passing(olds, oldElms, news, first, children, nextElm, newElms[ne - 1 := oldElms[oe - 1]],
      from[ne - 1 := Some(oe - 1)],
        to[oe - 1 := ne - 1], current, keys, os, oe - 1, ns, ne - 1);
  }

  /** The first old node left is moved to the end. */
  lemma StepMoveRight(olds: seq<VNode>, oldElms: seq<Elm>, news: seq<VNode>, first: Elm, children: seq<Elm>,
        nextElm: Elm,
      newElms: seq<Elm>, current: seq<Option<VNode>>, keys: Option<map<string, nat>>, os: int, oe: int, ns: int,
        ne: int)
    requires Underway(olds, oldElms, news, first, children, nextElm, newElms, current, keys, os, oe, ns, ne)
    requires os < oe - 1 < |current| && ns < ne && Pair(olds, oldElms, news, newElms, current, os, ne - 1)
    requires current[oe - 1].Some?
    ensures var next := NextAfter(children, oldElms[oe - 1]);
      next != Some(oldElms[os]) &&
      Underway(olds, oldElms, news, first, Before(Without(children, oldElms[os]), oldElms[os], next), nextElm,
        newElms[ne - 1 := oldElms[os]], current, keys, os + 1, oe, ns, ne - 1)
  {
    var from, to :| Passing(olds, oldElms, news, first, children, nextElm, newElms, from, to, current, keys, os, oe, ns,
      ne);
    LayoutMoveRight(children, nextElm, newElms, current, oldElms, os, oe, ns, ne);
    KeysStillFit(olds, current, keys, os, oe, os + 1, oe);
    ClaimAcross(olds, oldElms, news, newElms, from, to, first, current, os, oe, ns, ne);
    assert Passing(olds, oldElms, news, first,
      Before(Without(children, oldElms[os]), oldElms[os], NextAfter(children, oldElms[oe - 1])), nextElm,
        newElms[ne - 1 := oldElms[os]], from[ne - 1 := Some(os)], to[os := ne - 1], current, keys, os + 1, oe, ns,
          ne - 1);
  }

  /** Old node `j` is moved to the front, a gap being left behind. */
  lemma StepMoveLeft(olds: seq<VNode>, oldElms: seq<Elm>, news: seq<VNode>, first: Elm, children: seq<Elm>,
        nextElm: Elm,
      newElms: seq<Elm>, current: seq<Option<VNode>>, keys: map<string, nat>, os: int, oe: int, ns: int, ne: int,
        j: int)
    requires Underway(olds, oldElms, news, first, children, nextElm, newElms, current, Some(keys), os, oe, ns, ne)
    requires 0 <= os < j < oe && ns < ne && Pair(olds, oldElms, news, newElms, current, j, ns) && current[os].Some?
    ensures oldElms[j] != oldElms[os]
    ensures Underway(olds, oldElms, news, first, Before(Without(children, oldElms[j]), oldElms[j], Some(oldElms[os])),
      nextElm,
        newElms[ns := oldElms[j]], current[j := None], Some(keys), os, oe, ns + 1, ne)
  {
    var from, to :| Passing(olds, oldElms, news, first, children, nextElm, newElms, from, to, current, Some(keys), os,
      oe, ns, ne);
    LayoutMoveLeft(children, nextElm, newElms, current, oldElms, os, oe, ns, ne, j);
    ClaimKeyed(olds, oldElms, news, newElms, from, to, first, current, os, oe, ns, ne, j);
    assert Passing(olds, oldElms, news, first, Before(Without(children, oldElms[j]), oldElms[j], Some(oldElms[os])),
      nextElm,
        newElms[ns := oldElms[j]], from[ns := Some(j)], to[j := ns], current[j := None], Some(keys), os, oe, ns + 1,
          ne);
  }

  /** The last old node left is moved to the front. */
  lemma StepMoveLast(olds: seq<VNode>, oldElms: seq<Elm>, news: seq<VNode>, first: Elm, children: seq<Elm>,
        nextElm: Elm,
      newElms: seq<Elm>, current: seq<Option<VNode>>, keys: Option<map<string, nat>>, os: int, oe: int, ns: int,
        ne: int)
    requires Underway(olds, oldElms, news, first, children, nextElm, newElms, current, keys, os, oe, ns, ne)
    requires 0 <= os < oe - 1 && ns < ne && Pair(olds, oldElms, news, newElms, current, oe - 1, ns) && current[os].Some?
    ensures oldElms[oe - 1] != oldElms[os]
    ensures Underway(olds, oldElms, news, first,
      Before(Without(children, oldElms[oe - 1]), oldElms[oe - 1], Some(oldElms[os])), nextElm,
        newElms[ns := oldElms[oe - 1]], current, keys, os, oe - 1, ns + 1, ne)
  {
    var from, to :| Passing(olds, oldElms, news, first, children, nextElm, newElms, from, to, current, keys, os, oe, ns,
      ne);
    LayoutMoveLast(children, nextElm, newElms, current, oldElms, os, oe, ns, ne);
    KeysStillFit(olds, current, keys, os, oe, os, oe - 1);
    ClaimBack(olds, oldElms, news, newElms, from, to, first, current, os, oe, ns, ne);
    assert Passing(olds, oldElms, news, first,
      Before(Without(children, oldElms[oe - 1]), oldElms[oe - 1], Some(oldElms[os])), nextElm,
        newElms[ns := oldElms[oe - 1]], from[ns := Some(oe - 1)], to[oe - 1 := ns], current, keys, os, oe - 1, ns + 1,
          ne);
  }

  /** A new element for the first new node left. */
  lemma StepCreate(olds: seq<VNode>, oldElms: seq<Elm>, news: seq<VNode>, first: Elm, children: seq<Elm>, nextElm: Elm,
      newElms: seq<Elm>, current: seq<Option<VNode>>, keys: Option<map<string, nat>>, os: int, oe: int, ns: int,
        ne: int)
    requires Underway(olds, oldElms, news, first, children, nextElm, newElms, current, keys, os, oe, ns, ne)
    requires 0 <= os < oe <= |current| == |oldElms| && 0 <= ns < ne <= |news| == |newElms| && current[os].Some?
    requires news[ns].key.Some? ==> forall j :: 0 <= j < |olds| ==> !SameVnode(olds[j], news[ns])
    ensures Underway(olds, oldElms, news, first, Before(children, nextElm, Some(oldElms[os])), nextElm + 1,
        newElms[ns := nextElm], current, keys, os, oe, ns + 1, ne)
  {
    var from, to :| Passing(olds, oldElms, news, first, children, nextElm, newElms, from, to, current, keys, os, oe, ns,
      ne);
    LayoutCreate(children, nextElm, newElms, current, oldElms, os, oe, ns, ne);
    ClaimNew(olds, oldElms, news, newElms, from, to, first, current, os, oe, ns, ne, ns + 1, ns, nextElm);
    assert Passing(olds, oldElms, news, first, Before(children, nextElm, Some(oldElms[os])), nextElm + 1,
        newElms[ns := nextElm], from[ns := None], to, current, keys, os, oe, ns + 1, ne);
  }

  /** A new element for the first new node left, once the old ones are used up. */
  lemma StepAdd(olds: seq<VNode>, oldElms: seq<Elm>, news: seq<VNode>, first: Elm, children: seq<Elm>, nextElm: Elm,
      newElms: seq<Elm>, current: seq<Option<VNode>>, keys: Option<map<string, nat>>, os: int, ns: int, ne: int)
    requires Underway(olds, oldElms, news, first, children, nextElm, newElms, current, keys, os, os, ns, ne)
    requires 0 <= ns < ne <= |newElms|
    ensures var ref := if ne == |newElms| then None else Some(newElms[ne]);
      Underway(olds, oldElms, news, first, Before(children, nextElm, ref), nextElm + 1, newElms[ns := nextElm], current,
        keys, os, os, ns + 1, ne)
  {
    var from, to :| Passing(olds, oldElms, news, first, children, nextElm, newElms, from, to, current, keys, os, os, ns,
      ne);
    LayoutAdd(children, nextElm, newElms, current, oldElms, os, ns, ne);
    if news[ns].key.Some? {
      forall j | 0 <= j < |olds|
        ensures !SameVnode(olds[j], news[ns])
      {
        if SameVnode(olds[j], news[ns]) {
          PartnerUnused(olds, oldElms, news, newElms, from, to, first, current, os, os, ns, ne, ns, j);
        }
      }
    }
    ClaimNew(olds, oldElms, news, newElms, from, to, first, current, os, os, ns, ne, ns + 1, ns, nextElm);
    assert Passing(olds, oldElms, news, first,
      Before(children, nextElm, if ne == |newElms| then None else Some(newElms[ne])), nextElm + 1,
        newElms[ns := nextElm], from[ns := None], to, current, keys, os, os, ns + 1, ne);
  }

  lemma Begins(olds: seq<VNode>, oldElms: seq<Elm>, news: seq<VNode>, nextElm: Elm, newElms: seq<Elm>,
        current: seq<Option<VNode>>)
    requires UniqueKeys(olds) && UniqueKeys(news) && |olds| == |oldElms| == |current| && |news| == |newElms|
    requires Distinct(oldElms) && forall e :: e in oldElms ==> e < nextElm
    requires forall j :: 0 <= j < |olds| ==> current[j] == Some(olds[j])
    ensures Underway(olds, oldElms, news, nextElm, oldElms, nextElm, newElms, current, None, 0, |olds|, 0, |news|)
  {
    var from: seq<Option<nat>> := seq(|news|, _ => None);
    var to: seq<nat> := seq(|olds|, _ => 0);
    RestIsAll(current, oldElms, 0);
    assert [] + oldElms[0..] + [] == oldElms;
    assert Passing(olds, oldElms, news, nextElm, oldElms, nextElm, newElms, from, to, current, None, 0, |olds|, 0,
      |news|);
  }

  lemma {:induction false} RestIsAll(current: seq<Option<VNode>>, oldElms: seq<Elm>, lo: nat)
    requires |current| == |oldElms| && lo <= |oldElms| && forall j :: 0 <= j < |current| ==> current[j].Some?
    ensures Rest(current, oldElms, lo, |oldElms|) == oldElms[lo..]
    decreases |oldElms| - lo
  {
    if lo < |oldElms| {
      RestIsAll(current, oldElms, lo + 1);
    }
  }

  /**
   What the pass is for: the children are the elements of the new nodes, in order and without repetition, and every new
   node has the element of an old node that is the same or a new one,
     a keyed node that of its old namesake if there is one.
   */
  ghost predicate Reconciled(olds: seq<VNode>, oldElms: seq<Elm>, news: seq<VNode>, first: Elm, children: seq<Elm>,
        newElms: seq<Elm>,
      from: seq<Option<nat>>)
  {
    && |olds| == |oldElms| && |news| == |newElms| == |from|
    && children == newElms && Distinct(newElms)
    && forall i :: 0 <= i < |news| ==> Claim(olds, oldElms, news, newElms, from, first, i)
  }

  lemma LayoutOver(children: seq<Elm>, nextElm: Elm, newElms: seq<Elm>, current: seq<Option<VNode>>, oldElms: seq<Elm>,
        os: int, ns: int)
    requires Layout(children, nextElm, newElms, current, oldElms, os, os, ns, ns)
    ensures children == newElms && Distinct(newElms)
  {
    assert newElms[..ns] + [] + newElms[ns..] == newElms;
  }

  // ---------- the pass itself ----------

  function At(nodes: seq<Option<VNode>>, i: int): Option<VNode> {
    if 0 <= i < |nodes| then nodes[i] else None
  }

  /** New elements for all the new nodes left, once the old ones are used up. */
  method AddVnodes(parent: Parent, ref: Option<Elm>, elms: seq<Elm>, start: nat, end: nat,
      ghost olds: seq<VNode>, ghost oldElms: seq<Elm>, ghost news: seq<VNode>, ghost first: Elm,
        ghost current: seq<Option<VNode>>,
      ghost keys: Option<map<string, nat>>, ghost os: int)
    returns (newElms: seq<Elm>)
    requires start <= end <= |elms| && ref == if end == |elms| then None else Some(elms[end])
    requires Underway(olds, oldElms, news, first, parent.children, parent.nextElm, elms, current, keys, os, os, start,
      end)
    modifies parent
    ensures Underway(olds, oldElms, news, first, parent.children, parent.nextElm, newElms, current, keys, os, os, end,
      end)
    ensures |newElms| == |elms| && newElms[..start] == elms[..start]
  {
    newElms := elms;
    for i := start to end
      invariant |newElms| == |elms| && newElms[..start] == elms[..start]
      invariant (end < |elms| ==> newElms[end] == elms[end])
      invariant Underway(olds, oldElms, news, first, parent.children, parent.nextElm, newElms, current, keys, os, os, i,
        end)
    {
      StepAdd(olds, oldElms, news, first, parent.children, parent.nextElm, newElms, current, keys, os, i, end);
      var e := parent.CreateElm(ref);
      newElms := newElms[i := e];
    }
  }

  /** The elements of the old nodes left are removed, once the new ones are all dealt with. */
  method RemoveVnodes(parent: Parent, oldElms: seq<Elm>, current: seq<Option<VNode>>, start: nat, end: nat,
        ghost newElms: seq<Elm>, ghost ns: int)
    requires Layout(parent.children, parent.nextElm, newElms, current, oldElms, start, end, ns, ns)
    modifies parent
    ensures parent.children == newElms && Distinct(newElms)
  {
    for i := start to end
      invariant Layout(parent.children, parent.nextElm, newElms, current, oldElms, i, end, ns, ns)
    {
      if current[i].Some? {
        LayoutRemove(parent.children, parent.nextElm, newElms, current, oldElms, i, end, ns, ns);
        parent.RemoveChild(oldElms[i]);
      } else {
        LayoutSkipStart(parent.children, parent.nextElm, newElms, current, oldElms, i, end, ns, ns);
      }
    }
    LayoutOver(parent.children, parent.nextElm, newElms, current, oldElms, end, ns);
  }

  /** Neither end of the old nodes left is the same as the first new node left; its element is looked up by key, or
      new. */
  method PlaceByKey(parent: Parent, olds: seq<VNode>, oldElms: seq<Elm>, news: seq<VNode>, elms: seq<Elm>,
        nodes: seq<Option<VNode>>,
      table: Option<map<string, nat>>, os: nat, oe: nat, ns: nat, ne: nat, ghost first: Elm)
    returns (newElms: seq<Elm>, current: seq<Option<VNode>>, keys: Option<map<string, nat>>, ok: bool)
    requires Underway(olds, oldElms, news, first, parent.children, parent.nextElm, elms, nodes, table, os, oe, ns, ne)
    requires os < oe <= |nodes| == |olds| == |oldElms| && ns < ne <= |news| == |elms| && nodes[os].Some?
    requires nodes[oe - 1].Some?
    requires !SameVnode(olds[os], news[ns]) && !SameVnode(olds[oe - 1], news[ns])
    modifies parent
    ensures ok <==> !Misled(olds, news[ns])
    ensures ok ==>
      Underway(olds, oldElms, news, first, parent.children, parent.nextElm, newElms, current, keys, os, oe, ns + 1, ne)
    ensures ok ==> exists partner :: PartnerIs(olds, news[ns], partner) && current == WithoutPartner(nodes, partner)
    ensures ok ==> |newElms| == |elms| && newElms[..ns] == elms[..ns]
    ensures |current| == |nodes| && current[os] == nodes[os] && current[oe - 1] == nodes[oe - 1]
  {
    hide Underway, PartnerIs, Misled, SameVnode;
    current := nodes;
    keys := FillTable(parent, olds, oldElms, news, elms, nodes, table, os, oe, ns, ne, first);
    KeyFound(olds, oldElms, news, first, parent.children, parent.nextElm, elms, nodes, keys.value, os, oe, ns, ne);
    var j;
    j, ok := FindByKey(olds, nodes, keys.value, os, oe, news[ns]);
    if !ok {
      return elms, current, keys, false;
    }
    if j.Some? {
      newElms, current := MoveKeyed(parent, oldElms, elms, nodes, os, oe, ns, ne, j.value, olds, news, first,
        keys.value);
    } else {
      newElms := CreateInFront(parent, oldElms, elms, os, oe, ns, ne, olds, news, first, nodes, keys);
    }
  }

  /** Old node `j`, the same as the first new node left, is moved in front of the first old node left. */
  method MoveKeyed(parent: Parent, oldElms: seq<Elm>, elms: seq<Elm>, nodes: seq<Option<VNode>>, os: nat, oe: nat,
        ns: nat, ne: nat, j: nat,
      ghost olds: seq<VNode>, ghost news: seq<VNode>, ghost first: Elm, ghost keys: map<string, nat>)
    returns (newElms: seq<Elm>, current: seq<Option<VNode>>)
    requires Underway(olds, oldElms, news, first, parent.children, parent.nextElm, elms, nodes, Some(keys), os, oe, ns,
      ne)
    requires os < j < oe - 1 && oe <= |nodes| && ns < ne && Pair(olds, oldElms, news, elms, nodes, j, ns)
    requires nodes[os].Some?
    modifies parent
    ensures Underway(olds, oldElms, news, first, parent.children, parent.nextElm, newElms, current, Some(keys), os, oe,
      ns + 1, ne)
    ensures current == nodes[j := None] && newElms == elms[ns := oldElms[j]]
  {
    StepMoveLeft(olds, oldElms, news, first, parent.children, parent.nextElm, elms, nodes, keys, os, oe, ns, ne, j);
    newElms, current := elms[ns := oldElms[j]], nodes[j := None];
    parent.InsertBefore(oldElms[j], Some(oldElms[os]));
  }

  /** A new element for the first new node left, in front of the first old node left. */
  method CreateInFront(parent: Parent, oldElms: seq<Elm>, elms: seq<Elm>, os: nat, oe: nat, ns: nat, ne: nat,
      ghost olds: seq<VNode>, ghost news: seq<VNode>, ghost first: Elm, ghost nodes: seq<Option<VNode>>,
        ghost keys: Option<map<string, nat>>)
    returns (newElms: seq<Elm>)
    requires Underway(olds, oldElms, news, first, parent.children, parent.nextElm, elms, nodes, keys, os, oe, ns, ne)
    requires os < oe <= |nodes| == |oldElms| && ns < ne <= |news| == |elms| && nodes[os].Some?
    requires news[ns].key.Some? ==> forall j :: 0 <= j < |olds| ==> !SameVnode(olds[j], news[ns])
    modifies parent
    ensures Underway(olds, oldElms, news, first, parent.children, parent.nextElm, newElms, nodes, keys, os, oe, ns + 1,
      ne)
    ensures |newElms| == |elms| && newElms[..ns] == elms[..ns]
  {
    StepCreate(olds, oldElms, news, first, parent.children, parent.nextElm, elms, nodes, keys, os, oe, ns, ne);
    var e := parent.CreateElm(Some(oldElms[os]));
    newElms := elms[ns := e];
  }

  /** The old node, if there is one, with the key of the first new node left, provided that it is the same in all other
      respects. */
  method FindByKey(ghost olds: seq<VNode>, nodes: seq<Option<VNode>>, keys: map<string, nat>, ghost os: nat,
        ghost oe: nat, node: VNode)
    returns (found: Option<nat>, ok: bool)
    requires TableFinds(olds, nodes, keys, os, oe, node) && os < oe
    requires !SameVnode(olds[os], node) && !SameVnode(olds[oe - 1], node)
    ensures ok <==> !Misled(olds, node)
    ensures ok ==> PartnerIs(olds, node, found)
    ensures ok && found.Some? ==> os < found.value < oe - 1 && nodes[found.value].Some?
  {
    if node.key.None? {
      return None, true;
    }
    if node.key.value !in keys {
      return None, !Inherited(node.key.value);
    }
    var j := keys[node.key.value];
    assert HasKey(olds, node.key.value);
    if SameVnode(nodes[j].value, node) {
      return Some(j), true;
    }
    return None, true;
  }

  /** The table of keys, made when it is first needed. */
  method FillTable(parent: Parent, olds: seq<VNode>, oldElms: seq<Elm>, news: seq<VNode>, elms: seq<Elm>,
        nodes: seq<Option<VNode>>,
      table: Option<map<string, nat>>, os: nat, oe: nat, ns: nat, ne: nat, ghost first: Elm)
    returns (keys: Option<map<string, nat>>)
    requires os < oe <= |nodes|
    requires Underway(olds, oldElms, news, first, parent.children, parent.nextElm, elms, nodes, table, os, oe, ns, ne)
    ensures keys.Some?
    ensures Underway(olds, oldElms, news, first, parent.children, parent.nextElm, elms, nodes, keys, os, oe, ns, ne)
  {
    keys := table;
    if keys.None? {
      NoneMissing(olds, oldElms, news, first, parent.children, parent.nextElm, elms, nodes, os, oe, ns, ne);
      var m := CreateKeyToOldIdx(nodes, os, oe);
      KeysMade(olds, oldElms, news, first, parent.children, parent.nextElm, elms, nodes, os, oe, ns, ne, m);
      keys := Some(m);
    }
  }

  /** What a pass leaves when the new nodes are all dealt with. */
  lemma PassOver(olds: seq<VNode>, oldElms: seq<Elm>, news: seq<VNode>, first: Elm, children: seq<Elm>, nextElm: Elm,
      newElms: seq<Elm>, current: seq<Option<VNode>>, keys: Option<map<string, nat>>, os: int, oe: int,
        ns: int) returns (from: seq<Option<nat>>)
    requires Underway(olds, oldElms, news, first, children, nextElm, newElms, current, keys, os, oe, ns, ns)
    ensures |olds| == |oldElms| && |news| == |newElms| == |from|
    ensures Layout(children, nextElm, newElms, current, oldElms, os, oe, ns, ns)
    ensures forall i :: 0 <= i < |news| ==> Claim(olds, oldElms, news, newElms, from, first, i)
  {
    var f, to :| Passing(olds, oldElms, news, first, children, nextElm, newElms, f, to, current, keys, os, oe, ns, ns);
    from := f;
    forall i | 0 <= i < |news|
      ensures Claim(olds, oldElms, news, newElms, from, first, i)
    {
      assert Done(ns, ns, i);
    }
  }

  /** The first old node left, the same as the last new node left, is moved behind the last old node left. */
  method MoveRight(parent: Parent, oldElms: seq<Elm>, elms: seq<Elm>, os: nat, oe: nat, ns: nat, ne: nat,
      ghost olds: seq<VNode>, ghost news: seq<VNode>, ghost first: Elm, ghost current: seq<Option<VNode>>,
        ghost keys: Option<map<string, nat>>)
    returns (newElms: seq<Elm>)
    requires Underway(olds, oldElms, news, first, parent.children, parent.nextElm, elms, current, keys, os, oe, ns, ne)
    requires os < oe - 1 < |current| && ns < ne && Pair(olds, oldElms, news, elms, current, os, ne - 1)
    requires current[oe - 1].Some?
    modifies parent
    ensures Underway(olds, oldElms, news, first, parent.children, parent.nextElm, newElms, current, keys, os + 1, oe,
      ns, ne - 1)
    ensures newElms == elms[ne - 1 := oldElms[os]]
  {
    StepMoveRight(olds, oldElms, news, first, parent.children, parent.nextElm, elms, current, keys, os, oe, ns, ne);
    newElms := elms[ne - 1 := oldElms[os]];
    var next := parent.NextSibling(oldElms[oe - 1]);
    parent.InsertBefore(oldElms[os], next);
  }

  /** The last old node left, the same as the first new node left, is moved in front of the first old node left. */
  method MoveLeft(parent: Parent, oldElms: seq<Elm>, elms: seq<Elm>, os: nat, oe: nat, ns: nat, ne: nat,
      ghost olds: seq<VNode>, ghost news: seq<VNode>, ghost first: Elm, ghost current: seq<Option<VNode>>,
        ghost keys: Option<map<string, nat>>)
    returns (newElms: seq<Elm>)
    requires Underway(olds, oldElms, news, first, parent.children, parent.nextElm, elms, current, keys, os, oe, ns, ne)
    requires os < oe - 1 && ns < ne && Pair(olds, oldElms, news, elms, current, oe - 1, ns) && current[os].Some?
    modifies parent
    ensures Underway(olds, oldElms, news, first, parent.children, parent.nextElm, newElms, current, keys, os, oe - 1,
      ns + 1, ne)
    ensures newElms == elms[ns := oldElms[oe - 1]]
  {
    StepMoveLast(olds, oldElms, news, first, parent.children, parent.nextElm, elms, current, keys, os, oe, ns, ne);
    newElms := elms[ns := oldElms[oe - 1]];
    parent.InsertBefore(oldElms[oe - 1], Some(oldElms[os]));
  }

  /** One turn of the loop: an old node that has been moved away is passed over, or a new node is dealt with. */
  method Turn(parent: Parent, oldCh: seq<VNode>, oldElms: seq<Elm>, newCh: seq<VNode>, elms: seq<Elm>,
        nodes: seq<Option<VNode>>,
      table: Option<map<string, nat>>, os: nat, oe: nat, ns: nat, ne: nat, oldStartVnode: Option<VNode>,
        oldEndVnode: Option<VNode>, ghost first: Elm)
    returns (newElms: seq<Elm>, current: seq<Option<VNode>>, keys: Option<map<string, nat>>,
      os': nat, oe': nat, ns': nat, ne': nat, ok: bool)
    requires UniqueKeys(oldCh)
    requires os < oe <= |oldCh| == |oldElms| == |nodes| && ns < ne <= |newCh| == |elms|
    requires oldStartVnode == nodes[os] && oldEndVnode == nodes[oe - 1]
    requires nodes[os].Some? ==> nodes[os].value == oldCh[os]
    requires nodes[oe - 1].Some? ==> nodes[oe - 1].value == oldCh[oe - 1]
    requires Underway(oldCh, oldElms, newCh, first, parent.children, parent.nextElm, elms, nodes, table, os, oe, ns, ne)
    modifies parent
    ensures |current| == |nodes| && current[os] == nodes[os] && current[oe - 1] == nodes[oe - 1]
    ensures ok ==>
      Underway(oldCh, oldElms, newCh, first, parent.children, parent.nextElm, newElms, current, keys, os', oe', ns',
        ne')
    ensures ok ==>
      os <= os' <= oe' <= oe && ns <= ns' <= ne' <= ne && oe' - os' + ne' - ns' < oe - os + ne - ns
        && |newElms| == |newCh|
    ensures ok ==>
      (Survives(oldCh, newCh, nodes, os, oe, ns, ne) <==> Survives(oldCh, newCh, current, os', oe', ns', ne'))
    ensures !ok ==> !Survives(oldCh, newCh, nodes, os, oe, ns, ne)
    ensures ok ==> newElms[..ns] == elms[..ns]
    ensures nodes[os].Some? && nodes[oe - 1].Some? ==> var (a, z) := (nodes[os].value, nodes[oe - 1].value);
      if SameVnode(a, newCh[ns]) then
        ok && newElms == elms[ns := oldElms[os]] && current == nodes && (os', oe', ns', ne') == (os + 1, oe, ns + 1, ne)
      else if SameVnode(z, newCh[ne - 1]) then
        ok && newElms == elms[ne - 1 := oldElms[oe - 1]] && (os', oe', ns', ne') == (os, oe - 1, ns, ne - 1)
      else if SameVnode(a, newCh[ne - 1]) then
        ok && newElms == elms[ne - 1 := oldElms[os]] && (os', oe', ns', ne') == (os + 1, oe, ns, ne - 1)
      else if SameVnode(z, newCh[ns]) then
        ok && newElms == elms[ns := oldElms[oe - 1]] && (os', oe', ns', ne') == (os, oe - 1, ns + 1, ne)
      else ok ==> (os', oe', ns', ne') == (os, oe, ns + 1, ne)
  {
    hide Underway;
    newElms, current, keys, os', oe', ns', ne', ok := elms, nodes, table, os, oe, ns, ne, true;
    ghost var children, nextElm := parent.children, parent.nextElm;
    if oldStartVnode.None? {
      StepSkipFirst(oldCh, oldElms, newCh, first, children, nextElm, elms, nodes, table, os, oe, ns, ne);
      os' := os + 1;
    } else if oldEndVnode.None? {
      StepSkipLast(oldCh, oldElms, newCh, first, children, nextElm, elms, nodes, table, os, oe, ns, ne);
      oe' := oe - 1;
    } else if SameVnode(oldStartVnode.value, newCh[ns]) {
      StepTakeFirst(oldCh, oldElms, newCh, first, children, nextElm, elms, nodes, table, os, oe, ns, ne);
      newElms, os', ns' := elms[ns := oldElms[os]], os + 1, ns + 1;
    } else if SameVnode(oldEndVnode.value, newCh[ne - 1]) {
      StepTakeLast(oldCh, oldElms, newCh, first, children, nextElm, elms, nodes, table, os, oe, ns, ne);
      newElms, oe', ne' := elms[ne - 1 := oldElms[oe - 1]], oe - 1, ne - 1;
    } else if SameVnode(oldStartVnode.value, newCh[ne - 1]) {
      newElms := MoveRight(parent, oldElms, elms, os, oe, ns, ne, oldCh, newCh, first, nodes, table);
      os', ne' := os + 1, ne - 1;
    } else if SameVnode(oldEndVnode.value, newCh[ns]) {
      newElms := MoveLeft(parent, oldElms, elms, os, oe, ns, ne, oldCh, newCh, first, nodes, table);
      oe', ns' := oe - 1, ns + 1;
    } else {
      newElms, current, keys,
        ok := PlaceByKey(parent, oldCh, oldElms, newCh, elms, nodes, table, os, oe, ns, ne, first);
      if !ok {
        return;
      }
      SurvivesLookup(oldCh, newCh, nodes, current, os, oe, ns, ne);
      ns' := ns + 1;
    }
    Bounds(oldCh, oldElms, newCh, first, parent.children, parent.nextElm, newElms, current, keys, os', oe', ns', ne');
  }

  /** What is left over on one side when the other has come to its end. */
  method Finish(parent: Parent, oldCh: seq<VNode>, oldElms: seq<Elm>, newCh: seq<VNode>, elms: seq<Elm>,
        current: seq<Option<VNode>>,
      os: nat, oe: nat, ns: nat, ne: nat, ghost keys: Option<map<string, nat>>, ghost first: Elm)
    returns (newElms: seq<Elm>, ghost from: seq<Option<nat>>)
    requires os <= oe <= |oldCh| == |oldElms| == |current| && ns <= ne <= |newCh| == |elms| && (os == oe || ns == ne)
    requires Underway(oldCh, oldElms, newCh, first, parent.children, parent.nextElm, elms, current, keys, os, oe, ns,
      ne)
    modifies parent
    ensures Reconciled(oldCh, oldElms, newCh, first, parent.children, newElms, from)
    ensures |newElms| == |elms| && newElms[..ns] == elms[..ns]
  {
    newElms := elms;
    if os >= oe {
      var ref := if ne < |elms| then Some(elms[ne]) else None;
      newElms := AddVnodes(parent, ref, elms, ns, ne, oldCh, oldElms, newCh, first, current, keys, os);
      from := PassOver(oldCh, oldElms, newCh, first, parent.children, parent.nextElm, newElms, current, keys, os, os,
        ne);
      LayoutOver(parent.children, parent.nextElm, newElms, current, oldElms, os, ne);
    } else {
      from := PassOver(oldCh, oldElms, newCh, first, parent.children, parent.nextElm, newElms, current, keys, os, oe,
        ns);
      RemoveVnodes(parent, oldElms, current, os, oe, newElms, ns);
    }
  }

  /** Equal nodes at the beginning of both lists have kept their elements, as far as the pass has come; and as long as
      it is among them it has done nothing else. */
  ghost predicate StartsInPlace(olds: seq<VNode>, oldElms: seq<Elm>, news: seq<VNode>, newElms: seq<Elm>,
        current: seq<Option<VNode>>, os: int, oe: int, ns: int, ne: int)
  {
    && |olds| == |oldElms| && |news| == |newElms| && 0 <= ns <= |news|
    && forall n: nat :: n <= |olds| && n <= |news| && olds[..n] == news[..n] ==>
      if ns < n then
        os == ns && oe == |olds| && ne == |news| && current == AllThere(olds) && newElms[..ns] == oldElms[..ns]
      else newElms[..n] == oldElms[..n]
  }

  lemma {:induction false} BeginsInPlace(olds: seq<VNode>, oldElms: seq<Elm>, news: seq<VNode>, newElms: seq<Elm>)
    requires |olds| == |oldElms| && |news| == |newElms|
    ensures StartsInPlace(olds, oldElms, news, newElms, AllThere(olds), 0, |olds|, 0, |news|)
  {
  }

  lemma {:induction false} TurnInPlace(olds: seq<VNode>, oldElms: seq<Elm>, news: seq<VNode>, elms: seq<Elm>,
        nodes: seq<Option<VNode>>, os: int, oe: int, ns: int, ne: int, newElms: seq<Elm>,
        current: seq<Option<VNode>>, os': int, oe': int, ns': int, ne': int)
    requires 0 <= os < oe <= |olds| == |nodes| && 0 <= ns < ne <= |news| == |newElms| && ns <= ns' <= |news|
    requires |olds| == |oldElms| && |news| == |elms| && newElms[..ns] == elms[..ns]
    requires nodes[os].Some? && nodes[oe - 1].Some? && SameVnode(nodes[os].value, news[ns]) ==>
      newElms == elms[ns := oldElms[os]] && current == nodes && (os', oe', ns', ne') == (os + 1, oe, ns + 1, ne)
    ensures StartsInPlace(olds, oldElms, news, elms, nodes, os, oe, ns, ne) ==>
      StartsInPlace(olds, oldElms, news, newElms, current, os', oe', ns', ne')
  {
    if StartsInPlace(olds, oldElms, news, elms, nodes, os, oe, ns, ne) {
      forall n: nat | n <= |olds| && n <= |news| && olds[..n] == news[..n]
        ensures if ns' < n then
          os' == ns' && oe' == |olds| && ne' == |news| && current == AllThere(olds) && newElms[..ns'] == oldElms[..ns']
        else newElms[..n] == oldElms[..n]
      {
        if ns < n {
          assert olds[..n][ns] == news[..n][ns];
          assert newElms[..ns + 1] == elms[..ns] + [oldElms[ns]] == oldElms[..ns + 1];
        } else {
          assert newElms[..n] == newElms[..ns][..n] == elms[..ns][..n] == elms[..n];
        }
      }
    }
  }

  lemma {:induction false} EndsInPlace(olds: seq<VNode>, oldElms: seq<Elm>, news: seq<VNode>, elms: seq<Elm>,
        newElms: seq<Elm>, current: seq<Option<VNode>>, os: int, oe: int, ns: int, ne: int)
    requires StartsInPlace(olds, oldElms, news, elms, current, os, oe, ns, ne) && (os == oe || ns == ne)
    requires |newElms| == |elms| && newElms[..ns] == elms[..ns]
    ensures forall n: nat :: n <= |olds| && n <= |news| && olds[..n] == news[..n] ==> newElms[..n] == oldElms[..n]
  {
    forall n: nat | n <= |olds| && n <= |news| && olds[..n] == news[..n] ensures newElms[..n] == oldElms[..n] {
      assert ns >= n;
      assert newElms[..n] == newElms[..ns][..n] == elms[..ns][..n] == elms[..n];
    }
  }

  /** What a pass means for the nodes: an element is used again only for a node that nothing compared tells apart from
      its own, and is for a keyed one whenever there is such an old node. */
  lemma {:induction false} ReconciledByFields(olds: seq<VNode>, oldElms: seq<Elm>, news: seq<VNode>, first: Elm,
        children: seq<Elm>, newElms: seq<Elm>, from: seq<Option<nat>>)
    requires Reconciled(olds, oldElms, news, first, children, newElms, from)
    ensures |olds| == |oldElms| && |news| == |newElms| == |from|
    ensures forall i :: 0 <= i < |news| && from[i].Some? ==>
      from[i].value < |olds| && newElms[i] == oldElms[from[i].value]
    ensures forall i :: 0 <= i < |news| && from[i].None? ==> newElms[i] >= first
    ensures forall i :: 0 <= i < |news| && from[i].Some? ==> var (o, v) := (olds[from[i].value], news[i]);
      && o.key == v.key && o.tag == v.tag && o.isComment == v.isComment && o.hasData == v.hasData
      && (v.tag == Some("input") ==> o.inputType == v.inputType)
    ensures forall i, j :: 0 <= i < |news| && 0 <= j < |olds| && news[i].key.Some? ==>
      var (o, v) := (olds[j], news[i]);
      (&& o.key == v.key && o.tag == v.tag && o.isComment == v.isComment && o.hasData == v.hasData
       && (v.tag == Some("input") ==> o.inputType == v.inputType)) ==> newElms[i] == oldElms[j]
  {
    forall i, j | 0 <= i < |news| && 0 <= j < |olds|
      ensures from[i] == Some(j) ==> SameVnode(olds[j], news[i])
      ensures news[i].key.Some? && SameVnode(olds[j], news[i]) ==> from[i] == Some(j)
    {
      assert Claim(olds, oldElms, news, newElms, from, first, i);
    }
    forall i | 0 <= i < |news|
      ensures from[i].Some? ==> from[i].value < |olds| && newElms[i] == oldElms[from[i].value]
      ensures from[i].None? ==> newElms[i] >= first
    {
      assert Claim(olds, oldElms, news, newElms, from, first, i);
    }
  }

  /** The loop: turn after turn until one side has come to its end, or a lookup is misled. */
  method Turns(parent: Parent, oldCh: seq<VNode>, oldElms: seq<Elm>, newCh: seq<VNode>, elms: seq<Elm>,
        nodes: seq<Option<VNode>>, ghost first: Elm)
    returns (newElms: seq<Elm>, current: seq<Option<VNode>>, keys: Option<map<string, nat>>, os: nat, oe: nat, ns: nat,
      ne: nat, ok: bool)
    requires UniqueKeys(oldCh) && |oldCh| == |oldElms| == |nodes| && |newCh| == |elms|
    requires Underway(oldCh, oldElms, newCh, first, parent.children, parent.nextElm, elms, nodes, None, 0, |oldCh|, 0,
      |newCh|)
    modifies parent
    ensures |oldCh| == |oldElms| == |current| && |newCh| == |newElms| && os <= oe <= |oldCh| && ns <= ne <= |newCh|
    ensures ok ==>
      Underway(oldCh, oldElms, newCh, first, parent.children, parent.nextElm, newElms, current, keys, os, oe, ns, ne)
    ensures ok ==> os == oe || ns == ne
    ensures ok && nodes == AllThere(oldCh) ==> StartsInPlace(oldCh, oldElms, newCh, newElms, current, os, oe, ns, ne)
    ensures ok <==> Survives(oldCh, newCh, nodes, 0, |oldCh|, 0, |newCh|)
  {
    hide Underway, UniqueKeys, StartsInPlace;
    BeginsInPlace(oldCh, oldElms, newCh, elms);
    os, oe, ns, ne, ok := 0, |oldCh|, 0, |newCh|, true;
    newElms, current, keys := elms, nodes, None;
    var oldStartVnode, oldEndVnode := At(current, os), At(current, oe - 1);
    while os < oe && ns < ne
      invariant |oldCh| == |oldElms| == |current| && |newCh| == |newElms| && os <= oe <= |oldCh| && ns <= ne <= |newCh|
      invariant Underway(oldCh, oldElms, newCh, first, parent.children, parent.nextElm, newElms, current, keys, os, oe,
        ns, ne)
      invariant Survives(oldCh, newCh, current, os, oe, ns, ne) <==>
        Survives(oldCh, newCh, nodes, 0, |oldCh|, 0, |newCh|)
      invariant nodes == AllThere(oldCh) ==> StartsInPlace(oldCh, oldElms, newCh, newElms, current, os, oe, ns, ne)
      invariant oldStartVnode == At(current, os) && oldEndVnode == At(current, oe - 1)
      decreases oe - os + ne - ns
    {
      hide Survives;
      Bounds(oldCh, oldElms, newCh, first, parent.children, parent.nextElm, newElms, current, keys, os, oe, ns, ne);
      var oldOs, oldOe, nodes', elms', keys' := os, oe, current, newElms, keys;
      ghost var oldNs, oldNe := ns, ne;
      newElms, current, keys, os, oe, ns, ne, ok :=
        Turn(parent, oldCh, oldElms, newCh, elms', nodes', keys', os, oe, ns, ne, oldStartVnode, oldEndVnode, first);
      if !ok {
        return elms', nodes', keys', 0, 0, 0, 0, false;
      }
      TurnInPlace(oldCh, oldElms, newCh, elms', nodes', oldOs, oldOe, oldNs, oldNe, newElms, current, os, oe, ns, ne);
      oldStartVnode := if os != oldOs then At(current, os) else oldStartVnode;
      oldEndVnode := if oe != oldOe then At(current, oe - 1) else oldEndVnode;
    }
    SurvivesAtTheEnd(oldCh, newCh, current, os, oe, ns, ne);
  }

  /**
   Makes the children of `parent`, which are the elements of `oldCh`, follow `newCh`.
   `newElms` are the elements of the new nodes, and `from` tells which of them were those of which old nodes.
   The pass fails, `ok` being false, where a lookup is misled.
   */
  method UpdateChildren(parent: Parent, oldCh: seq<VNode>, oldElms: seq<Elm>, newCh: seq<VNode>)
    returns (newElms: seq<Elm>, ghost from: seq<Option<nat>>, ok: bool)
    requires UniqueKeys(oldCh) && UniqueKeys(newCh) && |oldCh| == |oldElms|
    requires parent.children == oldElms && Distinct(oldElms) && forall e :: e in oldElms ==> e < parent.nextElm
    modifies parent
    ensures ok <==> SurvivesPass(oldCh, newCh)
    ensures ok ==> Reconciled(oldCh, oldElms, newCh, old(parent.nextElm), parent.children, newElms, from)
    ensures ok ==> |newElms| == |from| == |newCh|
    ensures ok ==> forall i :: 0 <= i < |newCh| && from[i].None? ==> newElms[i] >= old(parent.nextElm)
    ensures ok ==> forall i :: 0 <= i < |newCh| && from[i].Some? ==>
      from[i].value < |oldCh| && newElms[i] == oldElms[from[i].value]
    ensures ok ==> forall i :: 0 <= i < |newCh| && from[i].Some? ==> var (o, v) := (oldCh[from[i].value], newCh[i]);
      && o.key == v.key && o.tag == v.tag && o.isComment == v.isComment && o.hasData == v.hasData
      && (v.tag == Some("input") ==> o.inputType == v.inputType)
    ensures ok ==> forall i, j :: 0 <= i < |newCh| && 0 <= j < |oldCh| && newCh[i].key.Some? ==>
      var (o, v) := (oldCh[j], newCh[i]);
      (&& o.key == v.key && o.tag == v.tag && o.isComment == v.isComment && o.hasData == v.hasData
       && (v.tag == Some("input") ==> o.inputType == v.inputType)) ==> newElms[i] == oldElms[j]
    ensures ok ==> forall n: nat :: n <= |oldCh| && n <= |newCh| && oldCh[..n] == newCh[..n] ==>
      newElms[..n] == oldElms[..n]
    ensures ok && oldCh == newCh ==> newElms == oldElms
  {
    ghost var first := parent.nextElm;
    var current, keys, os, oe, ns, ne := AllThere(oldCh), None, 0, 0, 0, 0;
    newElms, from := seq(|newCh|, _ => 0), [];
    Begins(oldCh, oldElms, newCh, first, newElms, current);
    hide Underway, Survives, Reconciled, StartsInPlace;
    newElms, current, keys, os, oe, ns, ne, ok := Turns(parent, oldCh, oldElms, newCh, newElms, current, first);
    if ok {
      ghost var elms := newElms;
      newElms, from := Finish(parent, oldCh, oldElms, newCh, newElms, current, os, oe, ns, ne, keys, first);
      ReconciledByFields(oldCh, oldElms, newCh, first, parent.children, newElms, from);
      EndsInPlace(oldCh, oldElms, newCh, elms, newElms, current, os, oe, ns, ne);
      if oldCh == newCh {
        assert oldCh[..|oldCh|] == newCh[..|oldCh|] && newElms[..|oldCh|] == newElms && oldElms[..|oldCh|] == oldElms;
      }
    }
  }

  lemma {:induction false} SurvivesAtTheEnd(olds: seq<VNode>, news: seq<VNode>, current: seq<Option<VNode>>, os: int,
        oe: int, ns: int, ne: int)
    requires 0 <= os && oe <= |current| && 0 <= ns && ne <= |news| && (os >= oe || ns >= ne)
    ensures Survives(olds, news, current, os, oe, ns, ne)
  {
  }
}
