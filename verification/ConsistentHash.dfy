/**
 A consistent-hash ring: every node has a number of points on it, and a key belongs to the node
 of the first point at or after the key's own.  The hash function is arbitrary, collisions and all;
 a node is its name.
 */
module ConsistentHash {
  import opened Wrappers

  type Node = string

  /** A replica's number in decimal. */
  function Digits(n: nat): string {
    if n < 10 then [('0' as int + n) as char] else Digits(n / 10) + [('0' as int + n % 10) as char]
  }

  function Point(hash: string -> int, node: Node, i: nat): int {
    hash(node + Digits(i))
  }

  ghost function Points(hash: string -> int, node: Node, replicas: nat): set<int> {
    set i | 0 <= i < replicas :: Point(hash, node, i)
  }

  /** What a string of digits says. */
  function Value(s: string): int {
    if s == [] then 0 else 10 * Value(s[..|s| - 1]) + (s[|s| - 1] as int - '0' as int)
  }

  /** A number's digits say that number, none of them more than need be. */
  lemma {:induction false} DigitsSay(n: nat)
    ensures Value(Digits(n)) == n && Digits(n) != [] && (n > 0 ==> Digits(n)[0] != '0')
    ensures forall c :: c in Digits(n) ==> '0' <= c <= '9'
  {
    if n < 10 {
      assert Digits(n)[..0] == [];
    } else {
      DigitsSay(n / 10);
      assert Digits(n)[..|Digits(n)| - 1] == Digits(n / 10);
    }
  }

  /** A node has a point for each replica: those of its name with the replica's number behind it.  They are as many as
      there are replicas unless they collide. */
  lemma {:induction false} PointsAre(hash: string -> int, node: Node, replicas: nat, p: int)
    ensures p in Points(hash, node, replicas) <==> exists i :: 0 <= i < replicas && p == hash(node + Digits(i))
    ensures (forall s, t :: hash(s) == hash(t) ==> s == t) ==> |Points(hash, node, replicas)| == replicas
  {
    EachPoint(hash, node, replicas);
    if p in Points(hash, node, replicas) {
      var i :| 0 <= i < replicas && p == Point(hash, node, i);
      assert p == hash(node + Digits(i));
    }
    if forall s, t :: hash(s) == hash(t) ==> s == t {
      PointsDiffer(hash, node, replicas);
    }
  }

  lemma {:induction false} EachPoint(hash: string -> int, node: Node, replicas: nat)
    ensures forall i :: 0 <= i < replicas ==> hash(node + Digits(i)) in Points(hash, node, replicas)
  {
    forall i | 0 <= i < replicas ensures hash(node + Digits(i)) in Points(hash, node, replicas) {
      assert Point(hash, node, i) in Points(hash, node, replicas);
    }
  }

  lemma {:induction false} PointsDiffer(hash: string -> int, node: Node, replicas: nat)
    requires forall s, t :: hash(s) == hash(t) ==> s == t
    ensures |Points(hash, node, replicas)| == replicas
  {
    if replicas == 0 {
      assert Points(hash, node, replicas) == {};
    } else {
      var n := replicas - 1;
      PointsDiffer(hash, node, n);
      PointsMore(hash, node, replicas);
      forall i | 0 <= i < n ensures Point(hash, node, i) != Point(hash, node, n) {
        DigitsSay(i);
        DigitsSay(n);
        assert (node + Digits(i))[|node|..] == Digits(i) && (node + Digits(n))[|node|..] == Digits(n);
      }
      assert Point(hash, node, n) !in Points(hash, node, n);
    }
  }

  // ---------- the ring as a map ----------

  /** The ring with all a node's points set to it. */
  function Added(circle: map<int, Node>, hash: string -> int, node: Node, replicas: nat): map<int, Node> {
    if replicas == 0 then circle
    else Added(circle, hash, node, replicas - 1)[Point(hash, node, replicas - 1) := node]
  }

  function Removed(circle: map<int, Node>, hash: string -> int, node: Node, replicas: nat): map<int, Node> {
    if replicas == 0 then circle
    else Removed(circle, hash, node, replicas - 1) - {Point(hash, node, replicas - 1)}
  }

  lemma {:induction false} AddedIs(circle: map<int, Node>, hash: string -> int, node: Node, replicas: nat)
    ensures var c := Added(circle, hash, node, replicas);
      && c.Keys == circle.Keys + Points(hash, node, replicas)
      && forall p :: p in c ==> c[p] == if p in Points(hash, node, replicas) then node else circle[p]
  {
    if replicas > 0 {
      AddedIs(circle, hash, node, replicas - 1);
      PointsMore(hash, node, replicas);
    } else {
      assert Points(hash, node, replicas) == {};
    }
  }

  lemma PointsMore(hash: string -> int, node: Node, replicas: nat)
    requires replicas > 0
    ensures Points(hash, node, replicas) == Points(hash, node, replicas - 1) + {Point(hash, node, replicas - 1)}
  {
  }

  lemma {:induction false} RemovedIs(circle: map<int, Node>, hash: string -> int, node: Node, replicas: nat)
    ensures Removed(circle, hash, node, replicas) == circle - Points(hash, node, replicas)
  {
    if replicas > 0 {
      RemovedIs(circle, hash, node, replicas - 1);
      PointsMore(hash, node, replicas);
    } else {
      assert Points(hash, node, replicas) == {};
    }
  }

  // ---------- who owns a key ----------

  /** `p` is the first point at or after `h`, going round. */
  ghost predicate IsNext(points: set<int>, h: int, p: int) {
    p in points &&
    if exists q :: q in points && q >= h
    then p >= h && forall q :: q in points && q >= h ==> p <= q
    else forall q :: q in points ==> p <= q
  }

  lemma OneNext(points: set<int>, h: int, p: int, p': int)
    requires IsNext(points, h, p) && IsNext(points, h, p')
    ensures p == p'
  {
    if exists q :: q in points && q >= h {
      assert p >= h && p' >= h;
    }
  }

  /** The node a hash value belongs to. */
  ghost predicate Owns(circle: map<int, Node>, h: int, node: Node) {
    exists p :: IsNext(circle.Keys, h, p) && circle[p] == node
  }

  lemma OneOwner(circle: map<int, Node>, h: int, node: Node, node': Node)
    requires Owns(circle, h, node) && Owns(circle, h, node')
    ensures node == node'
  {
    var p :| IsNext(circle.Keys, h, p) && circle[p] == node;
    var p' :| IsNext(circle.Keys, h, p') && circle[p'] == node';
    OneNext(circle.Keys, h, p, p');
  }

  /** The first of more points is the first of fewer, if it is one of them. */
  lemma NextOfFewer(fewer: set<int>, more: set<int>, h: int, p: int)
    requires fewer <= more && IsNext(more, h, p) && p in fewer
    ensures IsNext(fewer, h, p)
  {
  }

  /** Adding a node changes a key's owner to that node or not at all, even where points collide. */
  lemma AddedOwner(circle: map<int, Node>, hash: string -> int, node: Node, replicas: nat, h: int, before: Node,
        after: Node)
    requires Owns(circle, h, before) && Owns(Added(circle, hash, node, replicas), h, after)
    ensures after == before || after == node
  {
    AddedIs(circle, hash, node, replicas);
    var c := Added(circle, hash, node, replicas);
    var p :| IsNext(c.Keys, h, p) && c[p] == after;
    if p !in Points(hash, node, replicas) {
      NextOfFewer(circle.Keys, c.Keys, h, p);
      OneOwner(circle, h, before, after);
    }
  }

  /** A node whose points on the ring are all its own. */
  ghost predicate OwnsItsPoints(circle: map<int, Node>, hash: string -> int, node: Node, replicas: nat) {
    forall p :: p in Points(hash, node, replicas) && p in circle ==> circle[p] == node
  }

  /** Removing a node takes no other node's point exactly if the node owns all its points on the ring. */
  lemma {:induction false} NoPointLostExactly(circle: map<int, Node>, hash: string -> int, node: Node, replicas: nat)
    ensures (forall p :: p in circle && circle[p] != node ==> p in Removed(circle, hash, node, replicas)) <==>
      OwnsItsPoints(circle, hash, node, replicas)
  {
    RemovedIs(circle, hash, node, replicas);
  }

  /** Every point that goes though it is another node's is followed, going round, by one of that node that stays. */
  ghost predicate LostPointsFollowed(circle: map<int, Node>, hash: string -> int, node: Node, replicas: nat) {
    var ps := Points(hash, node, replicas);
    forall p :: p in ps && p in circle && circle[p] != node ==> exists q :: Follows(circle, ps, p, q)
  }

  ghost predicate Follows(circle: map<int, Node>, gone: set<int>, p: int, q: int) {
    p in circle && IsNext(circle.Keys - gone, p, q) && circle[q] == circle[p]
  }

  /** Past a first point that goes, the first that stays is the one that follows it. */
  lemma NextOfStaying(points: set<int>, gone: set<int>, h: int, p: int, q: int)
    requires IsNext(points, h, p) && IsNext(points - gone, p, q)
    ensures IsNext(points - gone, h, q)
  {
    var left := points - gone;
    if r :| r in left && r >= h {
      assert r in points && r >= p;
    } else {
      assert forall r :: r in left ==> r < h;
      if x :| x in points && x >= h {
        assert p >= h && forall r :: r in left ==> r < p;
      } else {
        assert forall r :: r in left ==> r in points && p <= r;
      }
    }
  }

  lemma {:induction false} OwnerKept(circle: map<int, Node>, hash: string -> int, node: Node, replicas: nat, h: int,
        before: Node)
    requires LostPointsFollowed(circle, hash, node, replicas) && Owns(circle, h, before) && before != node
    ensures Owns(Removed(circle, hash, node, replicas), h, before)
  {
    RemovedIs(circle, hash, node, replicas);
    var ps, c := Points(hash, node, replicas), Removed(circle, hash, node, replicas);
    var p :| IsNext(circle.Keys, h, p) && circle[p] == before;
    if p in ps {
      var q :| Follows(circle, ps, p, q);
      NextOfStaying(circle.Keys, ps, h, p, q);
      assert c.Keys == circle.Keys - ps && c[q] == before;
    } else {
      NextOfFewer(c.Keys, circle.Keys, h, p);
      assert c[p] == before;
    }
  }

  /** Removing a node leaves every key that it did not own with its owner exactly if what is lost of other nodes is
      followed by what they keep. */
  lemma {:induction false} OwnersKeptExactly(circle: map<int, Node>, hash: string -> int, node: Node, replicas: nat)
    ensures (forall key: string, before :: Owns(circle, hash(key), before) && before != node ==>
      Owns(Removed(circle, hash, node, replicas), hash(key), before)) <==>
        LostPointsFollowed(circle, hash, node, replicas)
  {
    hide IsNext;
    if LostPointsFollowed(circle, hash, node, replicas) {
      forall key: string, before | Owns(circle, hash(key), before) && before != node
        ensures Owns(Removed(circle, hash, node, replicas), hash(key), before)
      {
        OwnerKept(circle, hash, node, replicas, hash(key), before);
      }
    } else {
      var ps := Points(hash, node, replicas);
      var p :| p in ps && p in circle && circle[p] != node && !exists q :: Follows(circle, ps, p, q);
      var i :| 0 <= i < replicas && p == Point(hash, node, i);
      LostOwner(circle, hash, node, replicas, p);
      assert Owns(circle, hash(node + Digits(i)), circle[p]);
    }
  }

  lemma {:induction false} LostOwner(circle: map<int, Node>, hash: string -> int, node: Node, replicas: nat, p: int)
    requires p in circle && !exists q :: Follows(circle, Points(hash, node, replicas), p, q)
    ensures Owns(circle, p, circle[p]) && !Owns(Removed(circle, hash, node, replicas), p, circle[p])
  {
    RemovedIs(circle, hash, node, replicas);
    var c := Removed(circle, hash, node, replicas);
    assert c.Keys == circle.Keys - Points(hash, node, replicas);
    assert IsNext(circle.Keys, p, p);
    forall q | IsNext(c.Keys, p, q) ensures c[q] != circle[p] {
      assert !Follows(circle, Points(hash, node, replicas), p, q);
    }
  }

  /** Removing a node whose points are all its own changes the owner of the keys it owned, and of no others. */
  lemma RemovedOwner(circle: map<int, Node>, hash: string -> int, node: Node, replicas: nat, h: int, before: Node)
    requires OwnsItsPoints(circle, hash, node, replicas) && Owns(circle, h, before) && before != node
    ensures Owns(Removed(circle, hash, node, replicas), h, before)
  {
    OwnerKept(circle, hash, node, replicas, h, before);
  }

  /** What adding and then removing a node leaves. */
  lemma AddedThenRemoved(circle: map<int, Node>, hash: string -> int, node: Node, replicas: nat)
    ensures Removed(Added(circle, hash, node, replicas), hash, node, replicas) == circle - Points(hash, node, replicas)
  {
    var c, ps := Added(circle, hash, node, replicas), Points(hash, node, replicas);
    AddedIs(circle, hash, node, replicas);
    RemovedIs(c, hash, node, replicas);
    forall p
      ensures p in c - ps <==> p in circle - ps
      ensures p in circle - ps ==> (c - ps)[p] == (circle - ps)[p]
    {
      assert p in c.Keys <==> p in circle.Keys || p in ps;
    }
  }

  /** Removing a node after adding it restores the ring exactly if none of its points was there before. */
  lemma RemoveAfterAdd(circle: map<int, Node>, hash: string -> int, node: Node, replicas: nat)
    ensures Removed(Added(circle, hash, node, replicas), hash, node, replicas) == circle <==>
      Points(hash, node, replicas) !! circle.Keys
  {
    var ps := Points(hash, node, replicas);
    AddedThenRemoved(circle, hash, node, replicas);
    if ps !! circle.Keys {
      assert circle - ps == circle;
    } else {
      var p :| p in ps && p in circle.Keys;
      assert p !in circle - ps;
    }
  }

  /** Where all points collide, removing one node takes the other off the ring with it. */
  lemma CollisionLosesNode(hash: string -> int)
    requires forall s :: hash(s) == 0
    ensures var both := Added(Added(map[], hash, "a", 1), hash, "b", 1);
      Owns(both, 0, "b") && Removed(both, hash, "a", 1) == map[] && !LostPointsFollowed(both, hash, "a", 1)
  {
    var both := Added(Added(map[], hash, "a", 1), hash, "b", 1);
    assert Added(map[], hash, "a", 0) == map[];
    assert Added(Added(map[], hash, "a", 1), hash, "b", 0) == Added(map[], hash, "a", 1);
    assert both == map[0 := "b"];
    assert IsNext(both.Keys, 0, 0);
    assert Removed(both, hash, "a", 0) == both;
    RemovedIs(both, hash, "a", 1);
    assert Point(hash, "a", 0) in Points(hash, "a", 1);
    assert both.Keys - Points(hash, "a", 1) == {};
  }

  // ---------- the ring ----------

  class Ring {
    const hash: string -> int
    const replicas: nat
    var circle: map<int, Node>

    constructor (hash: string -> int, replicas: nat, nodes: seq<Node>)
      ensures this.hash == hash && this.replicas == replicas && circle == AddedAll(map[], hash, nodes, replicas)
    {
      this.hash, this.replicas, circle := hash, replicas, map[];
      new;
      for i := 0 to |nodes|
        invariant this.hash == hash && this.replicas == replicas
        invariant AddedAll(circle, hash, nodes[i..], replicas) == AddedAll(map[], hash, nodes, replicas)
      {
        assert nodes[i..][1..] == nodes[i + 1..];
        Add(nodes[i]);
      }
    }

    method Add(node: Node)
      modifies this
      ensures circle == Added(old(circle), hash, node, replicas)
      ensures forall i :: 0 <= i < replicas ==>
        hash(node + Digits(i)) in circle && circle[hash(node + Digits(i))] == node
      ensures forall p :: p !in Points(hash, node, replicas) ==>
        (p in circle <==> p in old(circle)) && (p in circle ==> circle[p] == old(circle)[p])
    {
      AddedIs(circle, hash, node, replicas);
      EachPoint(hash, node, replicas);
      for i := 0 to replicas
        invariant circle == Added(old(circle), hash, node, i)
      {
        circle := circle[Point(hash, node, i) := node];
      }
    }

    method Remove(node: Node)
      modifies this
      ensures circle == Removed(old(circle), hash, node, replicas)
      ensures forall i :: 0 <= i < replicas ==> hash(node + Digits(i)) !in circle
      ensures forall p :: p !in Points(hash, node, replicas) ==>
        (p in circle <==> p in old(circle)) && (p in circle ==> circle[p] == old(circle)[p])
    {
      RemovedIs(circle, hash, node, replicas);
      EachPoint(hash, node, replicas);
      for i := 0 to replicas
        invariant circle == Removed(old(circle), hash, node, i)
      {
        circle := circle - {Point(hash, node, i)};
      }
    }

    /** The owner of a key; there is none on an empty ring. */
    method Get(key: string) returns (node: Option<Node>)
      ensures node.None? <==> circle == map[]
      ensures node.Some? ==> Owns(circle, hash(key), node.value)
    {
      if circle == map[] {
        return None;
      }
      var h := hash(key);
      if h !in circle {
        h := FirstAtOrAfter(circle.Keys, h);
      }
      assert IsNext(circle.Keys, hash(key), h);
      return Some(circle[h]);
    }
  }

  function AddedAll(circle: map<int, Node>, hash: string -> int, nodes: seq<Node>, replicas: nat): map<int, Node>
    decreases |nodes|
  {
    if nodes == [] then circle else AddedAll(Added(circle, hash, nodes[0], replicas), hash, nodes[1..], replicas)
  }

  /** The first point of the tail map if there is one, of the whole map if not. */
  method FirstAtOrAfter(points: set<int>, h: int) returns (p: int)
    requires points != {}
    ensures IsNext(points, h, p)
  {
    var tail := set q | q in points && q >= h;
    if tail == {} {
      p := First(points);
      assert forall q :: q in points ==> q !in tail;
    } else {
      p := First(tail);
      assert p in tail && forall q :: q in points && q >= h ==> q in tail;
    }
  }

  lemma NotEmpty(points: set<int>)
    requires points != {}
    ensures exists p :: p in points
  {
    assert (exists p :: p in points) || points == {};
  }

  /** The least of a set of points. */
  method First(points: set<int>) returns (p: int)
    requires points != {}
    ensures p in points && forall q :: q in points ==> p <= q
  {
    NotEmpty(points);
    p :| p in points;
    var rest := points - {p};
    while rest != {}
      invariant rest <= points && p in points && forall q :: q in points && q !in rest ==> p <= q
      decreases |rest|
    {
      NotEmpty(rest);
      var q :| q in rest;
      if q < p {
        p := q;
      }
      rest := rest - {q};
    }
  }
}
