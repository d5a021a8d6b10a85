/**
 The subscription graph: while a watcher is evaluated, the dependencies that are read collect it
 as a subscriber, and afterwards those no longer read lose it.
 Dependencies and watchers are known by their ids.
 */
module VueWatchers {
  import opened Wrappers

  type Id = nat

  datatype Watcher = Watcher(deps: seq<Id>, newDeps: seq<Id>, depIds: set<Id>, newDepIds: set<Id>, active: bool)

  /** `target` is the watcher being evaluated, `stack` those whose evaluation it has interrupted; `uid` is the last id
      given. */
  datatype Graph = Graph(subs: map<Id, seq<Id>>, watchers: map<Id, Watcher>, target: Option<Id>, stack: seq<Id>,
        uid: nat) {
    function Subs(d: Id): seq<Id> {
      if d in subs then subs[d] else []
    }

    predicate Evaluating(w: Id) {
      target == Some(w) || w in stack
    }
  }

  /** What goes on while a watcher is evaluated, or while none is. */
  datatype Action =
    | Touch(dep: Id)
    | Depend(watcher: Id)
    | Evaluate(watcher: Id, body: seq<Action>)
    | Run(watcher: Id, body: seq<Action>)
    | Create(lazy: bool, body: seq<Action>)
    | Teardown(watcher: Id)

  // ---------- one step each ----------

  function RemoveFirst(s: seq<Id>, x: Id): seq<Id> {
    if s == [] then [] else if s[0] == x then s[1..] else [s[0]] + RemoveFirst(s[1..], x)
  }

  function RemoveSub(g: Graph, d: Id, w: Id): Graph {
    g.(subs := g.subs[d := RemoveFirst(g.Subs(d), w)])
  }

  function PushTarget(g: Graph, w: Id): Graph {
    g.(stack := if g.target.Some? then g.stack + [g.target.value] else g.stack, target := Some(w))
  }

  function PopTarget(g: Graph): Graph {
    if g.stack == [] then g.(target := None)
    else g.(target := Some(g.stack[|g.stack| - 1]), stack := g.stack[..|g.stack| - 1])
  }

  function AddDep(g: Graph, w: Id, d: Id): Graph
    requires w in g.watchers
  {
    var x := g.watchers[w];
    if d in x.newDepIds then g
    else
      var x' := x.(newDepIds := x.newDepIds + {d}, newDeps := x.newDeps + [d]);
      g.(watchers := g.watchers[w := x'], subs := if d in x.depIds then g.subs else g.subs[d := g.Subs(d) + [w]])
  }

  function DependOn(g: Graph, d: Id): Graph {
    if g.target.Some? && g.target.value in g.watchers then AddDep(g, g.target.value, d) else g
  }

  /** Depending on each of some dependencies, the last one first. */
  function DependOnAll(g: Graph, ds: seq<Id>): Graph
    decreases |ds|
  {
    if ds == [] then g else DependOnAll(DependOn(g, ds[|ds| - 1]), ds[..|ds| - 1])
  }

  /** Taking a watcher from the subscribers of those dependencies that are not to be kept, the last one first. */
  function Unsubscribe(g: Graph, ds: seq<Id>, keep: set<Id>, w: Id): Graph
    decreases |ds|
  {
    if ds == [] then g
    else
      var d := ds[|ds| - 1];
      Unsubscribe(if d in keep then g else RemoveSub(g, d, w), ds[..|ds| - 1], keep, w)
  }

  lemma {:induction false} UnsubscribeKeeps(g: Graph, ds: seq<Id>, keep: set<Id>, w: Id)
    ensures var g' := Unsubscribe(g, ds, keep, w);
      g'.watchers == g.watchers && g'.target == g.target && g'.stack == g.stack && g'.uid == g.uid
    decreases |ds|
  {
    if ds != [] {
      var d := ds[|ds| - 1];
      UnsubscribeKeeps(if d in keep then g else RemoveSub(g, d, w), ds[..|ds| - 1], keep, w);
    }
  }

  function CleanupDeps(g: Graph, w: Id): Graph
    requires w in g.watchers
  {
    var x := g.watchers[w];
    var g' := Unsubscribe(g, x.deps, x.newDepIds, w);
    g'.(watchers := g'.watchers[w := x.(deps := x.newDeps, depIds := x.newDepIds, newDeps := [], newDepIds := {})])
  }

  function TeardownOf(g: Graph, w: Id): Graph {
    if w !in g.watchers || !g.watchers[w].active then g
    else
      var g' := Unsubscribe(g, g.watchers[w].deps, {}, w);
      g'.(watchers := g'.watchers[w := g.watchers[w].(active := false)])
  }

  function NewWatcher(g: Graph): Graph {
    g.(uid := g.uid + 1, watchers := g.watchers[g.uid + 1 := Watcher([], [], {}, {}, true)])
  }

  // ---------- evaluation ----------

  function Get(g: Graph, w: Id, body: seq<Action>): Graph
    decreases body, 1
  {
    if w !in g.watchers then g
    else
      var g' := PopTarget(Exec(PushTarget(g, w), body));
      if w in g'.watchers then CleanupDeps(g', w) else g'
  }

  function Perform(g: Graph, a: Action): Graph
    decreases a, 0
  {
    match a
    case Touch(d) => DependOn(g, d)
    case Depend(w) => if w in g.watchers then DependOnAll(g, g.watchers[w].deps) else g
    case Evaluate(w, body) => Get(g, w, body)
    case Run(w, body) => if w in g.watchers && g.watchers[w].active then Get(g, w, body) else g
    case Create(lazy, body) =>
      var g' := NewWatcher(g);
      if lazy then g' else Get(g', g'.uid, body)
    case Teardown(w) => TeardownOf(g, w)
  }

  function Exec(g: Graph, script: seq<Action>): Graph
    decreases script, 0
  {
    if script == [] then g else Exec(Perform(g, script[0]), script[1..])
  }

  // ---------- what every step keeps ----------

  function SetOf(s: seq<Id>): set<Id> {
    set x | x in s
  }

  ghost predicate NoRepeats(s: seq<Id>) {
    forall i, j :: 0 <= i < j < |s| ==> s[i] != s[j]
  }

  /** How often a watcher is among the subscribers of a dependency. */
  ghost function Count(g: Graph, d: Id, w: Id): nat {
    multiset(g.Subs(d))[w]
  }

  /** An active watcher is subscribed, once, to each dependency it has or has just collected, and to no other. */
  ghost predicate Consistent(g: Graph, w: Id)
    requires w in g.watchers
  {
    var x := g.watchers[w];
    x.active ==>
      && x.depIds == SetOf(x.deps) && x.newDepIds == SetOf(x.newDeps) && NoRepeats(x.deps) && NoRepeats(x.newDeps)
      && forall d :: Count(g, d, w) == if d in x.depIds || d in x.newDepIds then 1 else 0
  }

  /** Only a watcher under evaluation is collecting. */
  ghost predicate Idle(g: Graph, w: Id)
    requires w in g.watchers
  {
    g.watchers[w].active && !g.Evaluating(w) ==> g.watchers[w].newDeps == []
  }

  /** The subscribers of a dependency are watchers there are. */
  ghost predicate MembersKnown(g: Graph, d: Id) {
    forall w :: w in g.Subs(d) ==> w in g.watchers
  }

  /** Dependencies that have no subscribers but those they had have known ones. */
  lemma StillKnown(g: Graph, g': Graph)
    requires (forall d :: MembersKnown(g, d)) && g.watchers.Keys <= g'.watchers.Keys
    requires forall d, w :: w in g'.Subs(d) ==> w in g.Subs(d)
    ensures forall d :: MembersKnown(g', d)
  {
    forall d
      ensures MembersKnown(g', d)
    {
      assert MembersKnown(g, d);
    }
  }

  ghost predicate Formed(g: Graph) {
    && (forall w :: w in g.watchers ==> w <= g.uid)
    && (forall d :: MembersKnown(g, d))
    && (g.target.Some? ==> g.target.value in g.watchers)
    && (forall w :: w in g.stack ==> w in g.watchers)
    && (g.target.None? ==> g.stack == [])
  }

  ghost predicate Wired(g: Graph) {
    && Formed(g)
    && (forall w :: w in g.watchers ==> Consistent(g, w))
    && (forall w :: w in g.watchers ==> Idle(g, w))
  }

  lemma {:induction false} RemoveFirstCount(s: seq<Id>, x: Id)
    ensures multiset(RemoveFirst(s, x)) == multiset(s) - multiset{x}
  {
    if s != [] {
      assert s == [s[0]] + s[1..];
      if s[0] != x {
        RemoveFirstCount(s[1..], x);
        assert multiset(s)[x] == multiset(s[1..])[x];
      }
    }
  }

  /** Taking a watcher from a dependency's subscribers touches no other watcher and no other dependency. */
  lemma RemoveSubCounts(g: Graph, d: Id, w: Id)
    ensures forall e, v ::
      Count(RemoveSub(g, d, w), e, v) == if e == d && v == w
        && Count(g, e, v) > 0 then Count(g, e, v) - 1 else Count(g, e, v)
  {
    RemoveFirstCount(g.Subs(d), w);
    forall e, v
      ensures Count(RemoveSub(g, d, w), e, v) == if e == d && v == w
        && Count(g, e, v) > 0 then Count(g, e, v) - 1 else Count(g, e, v)
    {
    }
  }

  lemma {:induction false} UnsubscribeCounts(g: Graph, ds: seq<Id>, keep: set<Id>, w: Id)
    requires NoRepeats(ds)
    ensures forall e, v ::
      Count(Unsubscribe(g, ds, keep, w), e, v) == if v == w && e in ds && e !in keep
        && Count(g, e, v) > 0 then Count(g, e, v) - 1 else Count(g, e, v)
    decreases |ds|
  {
    if ds != [] {
      var d, rest := ds[|ds| - 1], ds[..|ds| - 1];
      var h := if d in keep then g else RemoveSub(g, d, w);
      RemoveSubCounts(g, d, w);
      UnsubscribeCounts(h, rest, keep, w);
      forall e, v
        ensures Count(Unsubscribe(g, ds, keep, w), e, v) ==
          if v == w && e in ds && e !in keep && Count(g, e, v) > 0 then Count(g, e, v) - 1 else Count(g, e, v)
      {
        assert e in ds <==> e == d || e in rest;
      }
    }
  }

  lemma {:induction false} UnsubscribeMembers(g: Graph, ds: seq<Id>, keep: set<Id>, w: Id)
    ensures forall e, v :: v in Unsubscribe(g, ds, keep, w).Subs(e) ==> v in g.Subs(e)
    decreases |ds|
  {
    if ds != [] {
      var d := ds[|ds| - 1];
      RemoveFirstCount(g.Subs(d), w);
      UnsubscribeMembers(if d in keep then g else RemoveSub(g, d, w), ds[..|ds| - 1], keep, w);
      forall e, v | v in RemoveSub(g, d, w).Subs(e)
        ensures v in g.Subs(e)
      {
        assert e == d ==> multiset(RemoveFirst(g.Subs(d), w))[v] > 0;
      }
    }
  }

  lemma PushKeeps(g: Graph, w: Id)
    requires Wired(g) && w in g.watchers
    ensures Wired(PushTarget(g, w))
  {
    var g' := PushTarget(g, w);
    StillKnown(g, g');
    forall v | v in g'.watchers
      ensures Consistent(g', v) && Idle(g', v)
    {
      assert Consistent(g, v) && Idle(g, v);
      assert g.Evaluating(v) ==> g'.Evaluating(v);
      assert forall d :: Count(g', d, v) == Count(g, d, v);
    }
  }

  /** Collecting a dependency keeps the graph wired; the watcher ends up collecting it and subscribed to it. */
  lemma AddDepKeeps(g: Graph, w: Id, d: Id)
    requires Wired(g) && w in g.watchers && g.Evaluating(w)
    ensures Wired(AddDep(g, w, d))
    ensures d in AddDep(g, w, d).watchers[w].newDepIds
  {
    var g' := AddDep(g, w, d);
    AddDepCounts(g, w, d);
    forall v | v in g'.watchers
      ensures Consistent(g', v) && Idle(g', v)
    {
      assert Consistent(g, v) && Idle(g, v);
      if v == w {
        CollectsOne(g, w, d);
      }
    }
    AddDepForms(g, w, d);
  }

  lemma AddDepCounts(g: Graph, w: Id, d: Id)
    requires w in g.watchers
    ensures var x := g.watchers[w];
      forall e, v :: Count(AddDep(g, w, d), e, v) == Count(g, e, v) + if e == d && v == w && d !in x.newDepIds
        && d !in x.depIds then 1 else 0
  {
  }

  lemma AddDepForms(g: Graph, w: Id, d: Id)
    requires Formed(g) && w in g.watchers
    ensures Formed(AddDep(g, w, d))
  {
    forall e
      ensures MembersKnown(AddDep(g, w, d), e)
    {
      assert MembersKnown(g, e);
    }
  }

  lemma CollectsOne(g: Graph, w: Id, d: Id)
    requires w in g.watchers && Consistent(g, w)
    ensures Consistent(AddDep(g, w, d), w)
  {
    AddDepCounts(g, w, d);
    var x := g.watchers[w];
    if x.active && d !in x.newDepIds {
      assert SetOf(x.newDeps + [d]) == SetOf(x.newDeps) + {d};
      assert d !in x.newDeps;
    }
  }

  lemma DependKeeps(g: Graph, d: Id)
    requires Wired(g)
    ensures Wired(DependOn(g, d)) && SameStack(g, DependOn(g, d))
  {
    if g.target.Some? {
      AddDepKeeps(g, g.target.value, d);
    }
  }

  /** The watchers under evaluation are the same, and no watcher is lost. */
  ghost predicate SameStack(g: Graph, g': Graph) {
    g'.target == g.target && g'.stack == g.stack && g.watchers.Keys <= g'.watchers.Keys && g.uid <= g'.uid
  }

  lemma {:induction false} DependAllKeeps(g: Graph, ds: seq<Id>)
    requires Wired(g)
    ensures Wired(DependOnAll(g, ds)) && SameStack(g, DependOnAll(g, ds))
    decreases |ds|
  {
    if ds != [] {
      DependKeeps(g, ds[|ds| - 1]);
      DependAllKeeps(DependOn(g, ds[|ds| - 1]), ds[..|ds| - 1]);
    }
  }

  /** The end of an evaluation: what was collected becomes what the watcher depends on. */
  lemma CleanupKeeps(g: Graph, w: Id)
    requires Wired(g) && g.target == Some(w)
    ensures Wired(CleanupDeps(PopTarget(g), w))
  {
    var p := PopTarget(g);
    var g' := CleanupDeps(p, w);
    var x := g.watchers[w];
    UnsubscribeKeeps(p, x.deps, x.newDepIds, w);
    CleanupMembers(g, w);
    StillKnown(g, g');
    forall v | v in g'.watchers
      ensures Consistent(g', v) && Idle(g', v)
    {
      if v == w {
        CleanedUp(g, w);
      } else {
        OthersCleanedUp(g, w, v);
      }
    }
  }

  lemma CleanupMembers(g: Graph, w: Id)
    requires w in g.watchers
    ensures forall d, v :: v in CleanupDeps(PopTarget(g), w).Subs(d) ==> v in g.Subs(d)
  {
    var p, x := PopTarget(g), g.watchers[w];
    UnsubscribeMembers(p, x.deps, x.newDepIds, w);
    forall d, v | v in CleanupDeps(p, w).Subs(d)
      ensures v in g.Subs(d)
    {
      assert v in Unsubscribe(p, x.deps, x.newDepIds, w).Subs(d);
      assert v in p.Subs(d);
    }
  }

  lemma CleanedUp(g: Graph, w: Id)
    requires g.target == Some(w) && w in g.watchers && Consistent(g, w)
    ensures var g' := CleanupDeps(PopTarget(g), w); w in g'.watchers && Consistent(g', w) && Idle(g', w)
  {
    var x := g.watchers[w];
    if x.active {
      UnsubscribeKeeps(PopTarget(g), x.deps, x.newDepIds, w);
      UnsubscribeCounts(PopTarget(g), x.deps, x.newDepIds, w);
      forall d
        ensures Count(CleanupDeps(PopTarget(g), w), d, w) == if d in x.newDepIds then 1 else 0
      {
        assert Count(PopTarget(g), d, w) == Count(g, d, w);
        assert Count(CleanupDeps(PopTarget(g), w), d, w) ==
          Count(Unsubscribe(PopTarget(g), x.deps, x.newDepIds, w), d, w);
        assert d in x.depIds <==> d in x.deps;
      }
    }
  }

  lemma OthersCleanedUp(g: Graph, w: Id, v: Id)
    requires g.target == Some(w) && w in g.watchers && v in g.watchers && v != w && Consistent(g, v) && Idle(g, v)
    ensures var g' := CleanupDeps(PopTarget(g), w); v in g'.watchers && Consistent(g', v) && Idle(g', v)
  {
    var x := g.watchers[w];
    var g' := CleanupDeps(PopTarget(g), w);
    UnsubscribeKeeps(PopTarget(g), x.deps, x.newDepIds, w);
    OthersUnsubscribed(PopTarget(g), x.deps, x.newDepIds, w, v);
    assert forall d :: Count(g', d, v) == Count(g, d, v) by {
      forall d
        ensures Count(g', d, v) == Count(g, d, v)
      {
        assert Count(g', d, v) == Count(Unsubscribe(PopTarget(g), x.deps, x.newDepIds, w), d, v);
      }
    }
    assert g.Evaluating(v) ==> g'.Evaluating(v);
  }

  lemma {:induction false} OthersUnsubscribed(g: Graph, ds: seq<Id>, keep: set<Id>, w: Id, v: Id)
    requires v != w
    ensures forall e :: Count(Unsubscribe(g, ds, keep, w), e, v) == Count(g, e, v)
    decreases |ds|
  {
    if ds != [] {
      var d := ds[|ds| - 1];
      RemoveSubCounts(g, d, w);
      OthersUnsubscribed(if d in keep then g else RemoveSub(g, d, w), ds[..|ds| - 1], keep, w, v);
    }
  }

  lemma TeardownKeeps(g: Graph, w: Id)
    requires Wired(g)
    ensures Wired(TeardownOf(g, w)) && SameStack(g, TeardownOf(g, w))
  {
    if w in g.watchers && g.watchers[w].active {
      var ds, g' := g.watchers[w].deps, TeardownOf(g, w);
      UnsubscribeKeeps(g, ds, {}, w);
      UnsubscribeMembers(g, ds, {}, w);
      assert forall d :: g'.Subs(d) == Unsubscribe(g, ds, {}, w).Subs(d);
      StillKnown(g, g');
      forall v | v in g'.watchers
        ensures Consistent(g', v) && Idle(g', v)
      {
        if v != w {
          OthersUnsubscribed(g, ds, {}, w, v);
          assert Consistent(g, v) && Idle(g, v);
          assert forall d :: Count(g', d, v) == Count(Unsubscribe(g, ds, {}, w), d, v);
        }
      }
    }
  }

  lemma NewWatcherKeeps(g: Graph)
    requires Wired(g)
    ensures Wired(NewWatcher(g)) && SameStack(g, NewWatcher(g))
  {
    var g' := NewWatcher(g);
    StillKnown(g, g');
    forall v | v in g'.watchers
      ensures Consistent(g', v) && Idle(g', v)
    {
      if v == g'.uid {
        assert v !in g.watchers;
        forall d
          ensures Count(g', d, v) == 0
        {
          assert MembersKnown(g, d);
          assert v !in g.Subs(d);
        }
      } else {
        assert Consistent(g, v) && Idle(g, v);
        assert forall d :: Count(g', d, v) == Count(g, d, v);
      }
    }
  }

  // ---------- whole evaluations ----------

  lemma {:induction false} GetKeeps(g: Graph, w: Id, body: seq<Action>)
    requires Wired(g)
    ensures Wired(Get(g, w, body)) && SameStack(g, Get(g, w, body))
    decreases body, 1
  {
    if w in g.watchers {
      PushKeeps(g, w);
      ExecKeeps(PushTarget(g, w), body);
      var e := Exec(PushTarget(g, w), body);
      CleanupKeeps(e, w);
      UnsubscribeKeeps(PopTarget(e), e.watchers[w].deps, e.watchers[w].newDepIds, w);
      assert g.target.Some? ==> (g.stack + [g.target.value])[..|g.stack|] == g.stack;
    }
  }

  lemma {:induction false} PerformKeeps(g: Graph, a: Action)
    requires Wired(g)
    ensures Wired(Perform(g, a)) && SameStack(g, Perform(g, a))
    decreases a, 0
  {
    match a
    case Touch(d) => DependKeeps(g, d);
    case Depend(w) =>
      if w in g.watchers {
        DependAllKeeps(g, g.watchers[w].deps);
      }
    case Evaluate(w, body) => GetKeeps(g, w, body);
    case Run(w, body) => GetKeeps(g, w, body);
    case Create(lazy, body) =>
      NewWatcherKeeps(g);
      GetKeeps(NewWatcher(g), g.uid + 1, body);
    case Teardown(w) => TeardownKeeps(g, w);
  }

  /** Whatever is evaluated, read, created or torn down, in whatever nesting, the graph stays wired and the stack
      balanced. */
  lemma {:induction false} ExecKeeps(g: Graph, script: seq<Action>)
    requires Wired(g)
    ensures Wired(Exec(g, script)) && SameStack(g, Exec(g, script))
    decreases script, 0
  {
    if script != [] {
      PerformKeeps(g, script[0]);
      ExecKeeps(Perform(g, script[0]), script[1..]);
    }
  }

  const EMPTY := Graph(map[], map[], None, [], 0)

  /** After any sequence of actions, an active watcher is subscribed, exactly once, to those dependencies it has, and to
      no others. */
  lemma SubscriptionsMirrored(script: seq<Action>, w: Id)
    requires var g := Exec(EMPTY, script); w in g.watchers && g.watchers[w].active
    ensures var g := Exec(EMPTY, script); var x := g.watchers[w];
      && (forall d :: Count(g, d, w) == if d in x.deps then 1 else 0)
      && x.depIds == SetOf(x.deps) && NoRepeats(x.deps) && x.newDeps == [] && x.newDepIds == {}
      && g.target.None? && g.stack == []
  {
    ExecKeeps(EMPTY, script);
    var g := Exec(EMPTY, script);
    assert Consistent(g, w) && Idle(g, w);
  }

  // ---------- what an evaluation collects ----------

  /** The watcher is evaluated again somewhere within. */
  predicate Reenters(script: seq<Action>, w: Id)
    decreases script, 0
  {
    script != [] && (ActionReenters(script[0], w) || Reenters(script[1..], w))
  }

  predicate ActionReenters(a: Action, w: Id)
    decreases a, 0
  {
    match a
    case Evaluate(v, body) => v == w || Reenters(body, w)
    case Run(v, body) => v == w || Reenters(body, w)
    case Create(_, body) => Reenters(body, w)
    case _ => false
  }

  /** What is read directly, not by other watchers evaluated on the way: dependencies touched, or depended on by way of
      a watcher. */
  function Read(g: Graph, script: seq<Action>): set<Id>
    decreases |script|
  {
    if script == [] then {}
    else
      (match script[0]
       case Touch(d) => {d}
       case Depend(v) => if v in g.watchers then SetOf(g.watchers[v].deps) else {}
       case _ => {})
      + Read(Perform(g, script[0]), script[1..])
  }

  /** What a watcher has and is collecting. */
  ghost predicate SameDeps(g: Graph, g': Graph, w: Id) {
    w in g.watchers && w in g'.watchers && g'.watchers[w] == g.watchers[w].(active := g'.watchers[w].active)
  }

  lemma {:induction false} DependAllLeavesAlone(g: Graph, ds: seq<Id>, w: Id)
    requires w in g.watchers && g.target != Some(w)
    ensures SameDeps(g, DependOnAll(g, ds), w) && DependOnAll(g, ds).target == g.target
    decreases |ds|
  {
    if ds != [] {
      DependAllLeavesAlone(DependOn(g, ds[|ds| - 1]), ds[..|ds| - 1], w);
    }
  }

  lemma {:induction false} GetLeavesAlone(g: Graph, v: Id, body: seq<Action>, w: Id)
    requires Wired(g) && w in g.watchers && v != w && !Reenters(body, w)
    ensures SameDeps(g, Get(g, v, body), w)
    decreases body, 1
  {
    if v in g.watchers {
      PushKeeps(g, v);
      ExecLeavesAlone(PushTarget(g, v), body, w);
      ExecKeeps(PushTarget(g, v), body);
      var e := PopTarget(Exec(PushTarget(g, v), body));
      UnsubscribeKeeps(e, e.watchers[v].deps, e.watchers[v].newDepIds, v);
    }
  }

  lemma {:induction false} PerformLeavesAlone(g: Graph, a: Action, w: Id)
    requires Wired(g) && w in g.watchers && !ActionReenters(a, w)
    requires g.target != Some(w) || !(a.Touch? || a.Depend?)
    ensures SameDeps(g, Perform(g, a), w)
    decreases a, 0
  {
    match a
    case Touch(d) =>
    case Depend(v) =>
      if v in g.watchers {
        DependAllLeavesAlone(g, g.watchers[v].deps, w);
      }
    case Evaluate(v, body) => GetLeavesAlone(g, v, body, w);
    case Run(v, body) => GetLeavesAlone(g, v, body, w);
    case Create(lazy, body) =>
      NewWatcherLeavesAlone(g, w);
      GetLeavesAlone(NewWatcher(g), NewWatcher(g).uid, body, w);
    case Teardown(v) => TeardownLeavesAlone(g, v, w);
  }

  lemma TeardownLeavesAlone(g: Graph, v: Id, w: Id)
    requires w in g.watchers
    ensures SameDeps(g, TeardownOf(g, v), w)
  {
    if v in g.watchers {
      UnsubscribeKeeps(g, g.watchers[v].deps, {}, v);
    }
  }

  lemma NewWatcherLeavesAlone(g: Graph, w: Id)
    requires Wired(g) && w in g.watchers
    ensures Wired(NewWatcher(g)) && SameDeps(g, NewWatcher(g), w) && w != NewWatcher(g).uid
  {
    NewWatcherKeeps(g);
  }

  /** While other watchers are evaluated, what a watcher has and is collecting stays as it is. */
  lemma {:induction false} ExecLeavesAlone(g: Graph, script: seq<Action>, w: Id)
    requires Wired(g) && w in g.watchers && !Reenters(script, w) && g.target != Some(w)
    ensures SameDeps(g, Exec(g, script), w)
    decreases script, 0
  {
    if script != [] {
      PerformKeeps(g, script[0]);
      PerformLeavesAlone(g, script[0], w);
      ExecLeavesAlone(Perform(g, script[0]), script[1..], w);
    }
  }

  lemma {:induction false} DependAllCollects(g: Graph, ds: seq<Id>, w: Id)
    requires w in g.watchers && g.target == Some(w)
    ensures var g' := DependOnAll(g, ds);
      w in g'.watchers && g'.watchers[w].newDepIds == g.watchers[w].newDepIds + SetOf(ds) && g'.target == g.target
    decreases |ds|
  {
    if ds == [] {
      assert SetOf(ds) == {};
    } else {
      var d, rest := ds[|ds| - 1], ds[..|ds| - 1];
      DependAllCollects(DependOn(g, d), rest, w);
      assert SetOf(ds) == SetOf(rest) + {d};
    }
  }

  /** The watcher under evaluation collects what is read, and nothing else. */
  lemma {:induction false} ExecCollects(g: Graph, script: seq<Action>, w: Id)
    requires Wired(g) && w in g.watchers && g.target == Some(w) && !Reenters(script, w)
    ensures var g' := Exec(g, script);
      w in g'.watchers && g'.watchers[w].newDepIds == g.watchers[w].newDepIds + Read(g, script)
    decreases script
  {
    if script != [] {
      var a := script[0];
      PerformKeeps(g, a);
      if a.Touch? {
        DependAllCollects(g, [a.dep], w);
        assert DependOnAll(DependOn(g, a.dep), []) == DependOn(g, a.dep) && [a.dep][..0] == [];
        assert SetOf([a.dep]) == {a.dep};
      } else if a.Depend? {
        if a.watcher in g.watchers {
          DependAllCollects(g, g.watchers[a.watcher].deps, w);
        }
      } else {
        PerformLeavesAlone(g, a, w);
      }
      ExecCollects(Perform(g, a), script[1..], w);
    }
  }

  /**
   After an evaluation that is not interrupted by another of the same watcher,
     a watcher that is still active is subscribed
   to exactly what it has read.
   */
  lemma EvaluationSubscribes(g: Graph, w: Id, body: seq<Action>)
    requires Wired(g) && w in g.watchers && g.watchers[w].active && !g.Evaluating(w) && !Reenters(body, w)
    ensures var g' := Get(g, w, body);
      w in g'.watchers
        && (g'.watchers[w].active ==> forall d :: Count(g', d, w) == if d in Read(PushTarget(g, w), body) then 1 else 0)
  {
    assert Idle(g, w) && Consistent(g, w);
    PushKeeps(g, w);
    ExecKeeps(PushTarget(g, w), body);
    ExecCollects(PushTarget(g, w), body, w);
    var e := Exec(PushTarget(g, w), body);
    assert SetOf([]) == {};
    UnsubscribeKeeps(PopTarget(e), e.watchers[w].deps, e.watchers[w].newDepIds, w);
    GetKeeps(g, w, body);
    assert Consistent(Get(g, w, body), w);
  }

  // ---------- what each action does ----------

  /** An active watcher is subscribed, once, to exactly these dependencies, and depends on them. */
  ghost predicate SubscribedTo(g: Graph, w: Id, ds: set<Id>) {
    && w in g.watchers
    && (g.watchers[w].active ==>
      SetOf(g.watchers[w].deps) == ds && forall d :: Count(g, d, w) == if d in ds then 1 else 0)
  }

  lemma {:induction false} GetSubscribes(g: Graph, w: Id, body: seq<Action>)
    requires Wired(g) && w in g.watchers && g.watchers[w].active && !g.Evaluating(w) && !Reenters(body, w)
    ensures SubscribedTo(Get(g, w, body), w, Read(PushTarget(g, w), body))
  {
    EvaluationSubscribes(g, w, body);
    GetKeeps(g, w, body);
    var g', ds := Get(g, w, body), Read(PushTarget(g, w), body);
    assert Consistent(g', w) && Idle(g', w);
    hide Get, Read;
    if g'.watchers[w].active {
      assert SetOf([]) == {};
      forall d ensures d in SetOf(g'.watchers[w].deps) <==> d in ds {
        assert Count(g', d, w) == if d in ds then 1 else 0;
      }
    }
  }

  /** Running or evaluating a watcher leaves it subscribed to what is read in its course, and to nothing else. */
  lemma {:induction false} RunSubscribes(g: Graph, w: Id, body: seq<Action>)
    requires Wired(g) && w in g.watchers && g.watchers[w].active && !g.Evaluating(w) && !Reenters(body, w)
    ensures SubscribedTo(Perform(g, Run(w, body)), w, Read(PushTarget(g, w), body))
    ensures SubscribedTo(Perform(g, Evaluate(w, body)), w, Read(PushTarget(g, w), body))
  {
    GetSubscribes(g, w, body);
    hide Read;
  }

  /** A watcher that has been torn down is not run. */
  lemma {:induction false} RunOfInactive(g: Graph, w: Id, body: seq<Action>)
    requires w in g.watchers ==> !g.watchers[w].active
    ensures Perform(g, Run(w, body)) == g
  {
  }

  /** A new watcher is subscribed to what its first evaluation reads, or to nothing if it is lazy. */
  lemma {:induction false} CreateSubscribes(g: Graph, body: seq<Action>)
    requires Wired(g) && !Reenters(body, g.uid + 1)
    ensures g.uid + 1 !in g.watchers
    ensures SubscribedTo(Perform(g, Create(false, body)), g.uid + 1, Read(PushTarget(NewWatcher(g), g.uid + 1), body))
    ensures var g' := Perform(g, Create(true, body));
      && SubscribedTo(g', g.uid + 1, {}) && g'.watchers[g.uid + 1].active
      && g'.subs == g.subs && forall w :: w in g.watchers ==> w in g'.watchers && g'.watchers[w] == g.watchers[w]
  {
    NewWatcherKeeps(g);
    var g', w := NewWatcher(g), g.uid + 1;
    assert Consistent(g', w);
    assert SetOf([]) == {};
    GetSubscribes(g', w, body);
    hide Read;
  }

  /** A watcher torn down while it is not evaluated is subscribed to nothing, and nothing else changes. */
  lemma {:induction false} TeardownUnsubscribes(g: Graph, w: Id)
    requires Wired(g) && w in g.watchers && g.watchers[w].active && !g.Evaluating(w)
    ensures var g' := Perform(g, Teardown(w));
      && w in g'.watchers && !g'.watchers[w].active && g'.watchers.Keys == g.watchers.Keys
      && (forall d :: Count(g', d, w) == 0)
      && (forall d, v :: v != w ==> Count(g', d, v) == Count(g, d, v))
      && forall v :: v in g.watchers && v != w ==> g'.watchers[v] == g.watchers[v]
  {
    assert Consistent(g, w) && Idle(g, w);
    assert SetOf([]) == {};
    var ds, g' := g.watchers[w].deps, TeardownOf(g, w);
    var h := Unsubscribe(g, ds, {}, w);
    UnsubscribeKeeps(g, ds, {}, w);
    UnsubscribeCounts(g, ds, {}, w);
    forall d, v ensures Count(g', d, v) == if v == w then 0 else Count(g, d, v) {
      assert Count(g', d, v) == Count(h, d, v);
      assert d in ds <==> d in g.watchers[w].depIds;
    }
  }

  lemma {:induction false} TeardownOfInactive(g: Graph, w: Id)
    requires w in g.watchers ==> !g.watchers[w].active
    ensures Perform(g, Teardown(w)) == g
  {
  }

  /** What is touched, or depended on by way of another watcher, the watcher under evaluation is subscribed to. */
  lemma {:induction false} TouchSubscribes(g: Graph, w: Id, d: Id, v: Id)
    requires Wired(g) && g.target == Some(w) && w in g.watchers && g.watchers[w].active
    ensures Count(Perform(g, Touch(d)), d, w) == 1
    ensures v in g.watchers && d in g.watchers[v].deps ==> Count(Perform(g, Depend(v)), d, w) == 1
  {
    DependKeeps(g, d);
    AddDepKeeps(g, w, d);
    assert Consistent(DependOn(g, d), w);
    if v in g.watchers && d in g.watchers[v].deps {
      var ds := g.watchers[v].deps;
      DependAllKeeps(g, ds);
      DependAllCollects(g, ds, w);
      DependAllStaysActive(g, ds, w);
      assert Consistent(DependOnAll(g, ds), w);
    }
  }

  lemma {:induction false} DependAllStaysActive(g: Graph, ds: seq<Id>, w: Id)
    requires w in g.watchers && g.target == Some(w)
    ensures var g' := DependOnAll(g, ds); w in g'.watchers && g'.watchers[w].active == g.watchers[w].active
    decreases |ds|
  {
    if ds != [] {
      DependAllStaysActive(DependOn(g, ds[|ds| - 1]), ds[..|ds| - 1], w);
    }
  }

  // ---------- the runtime ----------

  /** The dependencies and watchers there are, and the target stack, as the runtime changes them. */
  class Runtime {
    var subs: map<Id, seq<Id>>
    var watchers: map<Id, Watcher>
    var target: Option<Id>
    var targetStack: seq<Id>
    var uid: nat

    ghost function State(): Graph
      reads this
    {
      Graph(subs, watchers, target, targetStack, uid)
    }

    constructor ()
      ensures State() == EMPTY
    {
      subs, watchers, target, targetStack, uid := map[], map[], None, [], 0;
    }

    method Push(w: Id)
      modifies this
      ensures State() == PushTarget(old(State()), w)
    {
      if target.Some? {
        targetStack := targetStack + [target.value];
      }
      target := Some(w);
    }

    method Pop()
      modifies this
      ensures State() == PopTarget(old(State()))
    {
      if targetStack == [] {
        target := None;
      } else {
        target := Some(targetStack[|targetStack| - 1]);
        targetStack := targetStack[..|targetStack| - 1];
      }
    }

    method RemoveSubscriber(d: Id, w: Id)
      modifies this
      ensures State() == RemoveSub(old(State()), d, w)
    {
      subs := subs[d := RemoveFirst(if d in subs then subs[d] else [], w)];
    }

    method Collect(w: Id, d: Id)
      requires w in watchers
      modifies this
      ensures State() == AddDep(old(State()), w, d)
    {
      var x := watchers[w];
      if d !in x.newDepIds {
        watchers := watchers[w := x.(newDepIds := x.newDepIds + {d}, newDeps := x.newDeps + [d])];
        if d !in x.depIds {
          subs := subs[d := (if d in subs then subs[d] else []) + [w]];
        }
      }
    }

    method TouchDep(d: Id)
      modifies this
      ensures State() == DependOn(old(State()), d)
    {
      if target.Some? && target.value in watchers {
        Collect(target.value, d);
      }
    }

    method DependOnWatcher(w: Id)
      modifies this
      ensures State() == Perform(old(State()), Depend(w))
    {
      if w in watchers {
        var deps := watchers[w].deps;
        var i := |deps|;
        assert deps[..i] == deps;
        while i > 0
          invariant 0 <= i <= |deps|
          invariant DependOnAll(State(), deps[..i]) == DependOnAll(old(State()), deps)
        {
          i := i - 1;
          assert deps[..i + 1][..i] == deps[..i];
          TouchDep(deps[i]);
        }
      }
    }

    /** Leaves the dependencies that are not to be kept. */
    method UnsubscribeAll(w: Id, deps: seq<Id>, keep: set<Id>)
      modifies this
      ensures State() == Unsubscribe(old(State()), deps, keep, w)
    {
      var i := |deps|;
      assert deps[..i] == deps;
      while i > 0
        invariant 0 <= i <= |deps|
        invariant Unsubscribe(State(), deps[..i], keep, w) == Unsubscribe(old(State()), deps, keep, w)
      {
        i := i - 1;
        assert deps[..i + 1][..i] == deps[..i];
        if deps[i] !in keep {
          RemoveSubscriber(deps[i], w);
        }
      }
    }

    method Cleanup(w: Id)
      requires w in watchers
      modifies this
      ensures State() == CleanupDeps(old(State()), w)
    {
      var x := watchers[w];
      UnsubscribeKeeps(State(), x.deps, x.newDepIds, w);
      UnsubscribeAll(w, x.deps, x.newDepIds);
      watchers := watchers[w := x.(deps := x.newDeps, depIds := x.newDepIds, newDeps := [], newDepIds := {})];
    }

    method TeardownWatcher(w: Id)
      modifies this
      ensures State() == TeardownOf(old(State()), w)
    {
      if w in watchers && watchers[w].active {
        UnsubscribeKeeps(State(), watchers[w].deps, {}, w);
        UnsubscribeAll(w, watchers[w].deps, {});
        watchers := watchers[w := watchers[w].(active := false)];
      }
    }

    method GetValue(w: Id, body: seq<Action>)
      modifies this
      ensures State() == Get(old(State()), w, body)
      decreases body, 1
    {
      if w in watchers {
        Push(w);
        RunScript(body);
        Pop();
        if w in watchers {
          Cleanup(w);
        }
      }
    }

    method RunAction(a: Action)
      modifies this
      ensures State() == Perform(old(State()), a)
      decreases a, 0
    {
      match a {
        case Touch(d) => TouchDep(d);
        case Depend(w) => DependOnWatcher(w);
        case Evaluate(w, body) => GetValue(w, body);
        case Run(w, body) =>
          if w in watchers && watchers[w].active {
            GetValue(w, body);
          }
        case Create(lazy, body) =>
          uid := uid + 1;
          watchers := watchers[uid := Watcher([], [], {}, {}, true)];
          if !lazy {
            GetValue(uid, body);
          }
        case Teardown(w) => TeardownWatcher(w);
      }
    }

    /** Performs actions one after the other, as the evaluation of watchers does, nested evaluations included. */
    method RunScript(script: seq<Action>)
      modifies this
      ensures State() == Exec(old(State()), script)
      decreases script, 0
    {
      if script != [] {
        RunAction(script[0]);
        RunScript(script[1..]);
      }
    }
  }
}
