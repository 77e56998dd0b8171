/**
 * A view and its descendants as a value, and the two operations of
 * src/mvc/View.js that walk the child list `_views`: the `isActive` 'changing'
 * hook (the activation cascade) and `_routed` (the routing cascade).
 */
module ViewTree {
  import opened Lifecycle

  /** A view's own state and its children, in `_views` order. */
  datatype Tree = Tree(root: ViewState, kids: seq<Tree>)

  /** The view has a `route` option of its own, so no cascade writes its `isActive`. */
  predicate HasRoute(t: Tree) {
    RouteBound(t.root)
  }

  /**
   * Writing `v` to the root's `isActive`: the value is stored, then the hook
   * writes `v` to every child without a route (each of which runs its own
   * hook), then the root tries to initialise with `v`.
   */
  function Cascade(t: Tree, v: bool): (r: Tree)
    ensures r.root.isActive == v && r.root.opts == t.root.opts
    ensures |r.kids| == |t.kids|
    ensures forall i :: 0 <= i < |t.kids| && HasRoute(t.kids[i]) ==> r.kids[i] == t.kids[i]
    decreases t, 0
  {
    Tree(TryInit(t.root.(isActive := v), v), CascadeKids(t.kids, v))
  }

  /** The children after the hook has written `v` to the route-less ones. */
  function CascadeKids(kids: seq<Tree>, v: bool): (ks: seq<Tree>)
    ensures |ks| == |kids|
    ensures forall j :: 0 <= j < |kids| ==> ks[j] == CascadeStep(kids[j], v)
    decreases kids, 0
  {
    if |kids| == 0 then []
    else CascadeKids(kids[..|kids| - 1], v) + [CascadeStep(kids[|kids| - 1], v)]
  }

  /** What the hook does to one child: nothing if it has a route, else the cascade. */
  function CascadeStep(k: Tree, v: bool): (r: Tree)
    decreases k, 1
  {
    if HasRoute(k) then k else Cascade(k, v)
  }

  /**
   * `_routed`: force the gate as if active, run `routed`, recurse into the
   * children that are active at that moment, then write `true` to `isActive`.
   */
  function Routed(t: Tree): (r: Tree)
    ensures r.root.isActive && r.root.opts == t.root.opts
    ensures r.root.calls.routed == t.root.calls.routed + 1
    ensures |r.kids| == |t.kids|
    decreases t, 1
  {
    Cascade(Tree(RoutedRoot(t.root), RoutedKids(t.kids)), true)
  }

  /** The view's own part of `_routed` before the children: the gate, then `routed`. */
  function RoutedRoot(s: ViewState): (r: ViewState)
    ensures r.calls.routed == s.calls.routed + 1
    ensures r.opts == s.opts && r.isActive == s.isActive
    ensures Inv(s) ==> Inv(r) && r.initCalled && (r.initialized || r.loading)
  {
    var r := TryInit(s, true);
    r.(calls := r.calls.(routed := r.calls.routed + 1))
  }

  /** The children after `_routed` has recursed into the active ones. */
  function RoutedKids(kids: seq<Tree>): (ks: seq<Tree>)
    ensures |ks| == |kids|
    ensures forall j :: 0 <= j < |kids| ==>
              ks[j] == if kids[j].root.isActive then Routed(kids[j]) else kids[j]
    decreases kids, 0
  {
    if |kids| == 0 then []
    else
      var k := kids[|kids| - 1];
      RoutedKids(kids[..|kids| - 1]) + [if k.root.isActive then Routed(k) else k]
  }

  /** The root and every descendant reached through route-less children hold `v`. */
  ghost predicate Mirrors(t: Tree, v: bool) {
    t.root.isActive == v &&
    forall i :: 0 <= i < |t.kids| && !HasRoute(t.kids[i]) ==> Mirrors(t.kids[i], v)
  }

  /** The root and every descendant reached through route-less children are
      active and either initialised, or have run `init` and are loading their
      content. */
  ghost predicate Activated(t: Tree) {
    t.root.isActive && (t.root.initialized || (t.root.initCalled && t.root.loading)) &&
    forall i :: 0 <= i < |t.kids| && !HasRoute(t.kids[i]) ==> Activated(t.kids[i])
  }

  /** Every node satisfies the per-view invariant. */
  ghost predicate TreeInv(t: Tree) {
    Inv(t.root) && forall i :: 0 <= i < |t.kids| ==> TreeInv(t.kids[i])
  }

  /** What a view can never lose: its options, `_initCalled`, `_initialized`,
      and the counts of calls it has made. */
  ghost predicate Grows(s: ViewState, r: ViewState) {
    && r.opts == s.opts
    && (s.initCalled ==> r.initCalled)
    && (s.initialized ==> r.initialized)
    && s.calls.init <= r.calls.init
    && s.calls.routed <= r.calls.routed
    && s.calls.fetched <= r.calls.fetched
    && s.calls.settled <= r.calls.settled
    && s.calls.updates <= r.calls.updates
  }

  /** `u` keeps every view of `t` in place, possibly with children added
      after the existing ones, and every such view has grown. */
  ghost predicate Progress(t: Tree, u: Tree) {
    Grows(t.root, u.root) && |u.kids| >= |t.kids| &&
    forall i :: 0 <= i < |t.kids| ==> Progress(t.kids[i], u.kids[i])
  }

  /** `u` has the shape of `t`: as many children at every node. */
  ghost predicate SameShape(t: Tree, u: Tree) {
    |u.kids| == |t.kids| &&
    forall i :: 0 <= i < |t.kids| ==> SameShape(t.kids[i], u.kids[i])
  }

  /** `u` has the shape of `t` and no view in it has run `routed` again. */
  ghost predicate RoutedCountsKept(t: Tree, u: Tree) {
    u.root.calls.routed == t.root.calls.routed && |u.kids| == |t.kids| &&
    forall i :: 0 <= i < |t.kids| ==> RoutedCountsKept(t.kids[i], u.kids[i])
  }

  /** `u` differs from `t` at most in `isActive`. */
  ghost predicate OnlyActivity(t: Tree, u: Tree) {
    u.root.(isActive := t.root.isActive) == t.root && |u.kids| == |t.kids| &&
    forall i :: 0 <= i < |t.kids| ==> OnlyActivity(t.kids[i], u.kids[i])
  }

  /** After a write of `v`, every route-less descendant mirrors `v`; a child
      with a route of its own is left exactly as it was. */
  lemma {:induction false} CascadeMirrors(t: Tree, v: bool)
    ensures Mirrors(Cascade(t, v), v)
    ensures |Cascade(t, v).kids| == |t.kids|
    ensures forall i :: 0 <= i < |t.kids| && HasRoute(t.kids[i]) ==>
              Cascade(t, v).kids[i] == t.kids[i]
  {
    var u := Cascade(t, v);
    forall i | 0 <= i < |u.kids| && !HasRoute(u.kids[i])
      ensures Mirrors(u.kids[i], v)
    {
      CascadeMirrors(t.kids[i], v);
    }
  }

  /** Activating a view activates and gates its whole route-less subtree. */
  lemma {:induction false} CascadeActivates(t: Tree)
    ensures Activated(Cascade(t, true))
  {
    var u := Cascade(t, true);
    forall i | 0 <= i < |u.kids| && !HasRoute(u.kids[i])
      ensures Activated(u.kids[i])
    {
      CascadeActivates(t.kids[i]);
    }
  }

  /** Deactivating a view changes nothing but `isActive`. */
  lemma {:induction false} CascadeOffOnlyFlips(t: Tree)
    ensures OnlyActivity(t, Cascade(t, false))
  {
    var u := Cascade(t, false);
    forall i | 0 <= i < |t.kids|
      ensures OnlyActivity(t.kids[i], u.kids[i])
    {
      OnlyActivityRefl(t.kids[i]);
      CascadeOffOnlyFlips(t.kids[i]);
    }
  }

  lemma {:induction false} OnlyActivityRefl(t: Tree)
    ensures OnlyActivity(t, t)
  {
    forall i | 0 <= i < |t.kids| ensures OnlyActivity(t.kids[i], t.kids[i]) {
      OnlyActivityRefl(t.kids[i]);
    }
  }

  lemma {:induction false} ProgressRefl(t: Tree)
    ensures Progress(t, t)
  {
    forall i | 0 <= i < |t.kids| ensures Progress(t.kids[i], t.kids[i]) {
      ProgressRefl(t.kids[i]);
    }
  }

  lemma {:induction false} SameShapeRefl(t: Tree)
    ensures SameShape(t, t)
  {
    forall i | 0 <= i < |t.kids| ensures SameShape(t.kids[i], t.kids[i]) {
      SameShapeRefl(t.kids[i]);
    }
  }

  lemma {:induction false} SameShapeTrans(t: Tree, u: Tree, w: Tree)
    requires SameShape(t, u) && SameShape(u, w)
    ensures SameShape(t, w)
  {
    forall i | 0 <= i < |t.kids| ensures SameShape(t.kids[i], w.kids[i]) {
      SameShapeTrans(t.kids[i], u.kids[i], w.kids[i]);
    }
  }

  lemma {:induction false} ProgressTrans(t: Tree, u: Tree, w: Tree)
    requires Progress(t, u) && Progress(u, w)
    ensures Progress(t, w)
  {
    forall i | 0 <= i < |t.kids| ensures Progress(t.kids[i], w.kids[i]) {
      ProgressTrans(t.kids[i], u.kids[i], w.kids[i]);
    }
  }

  /** The cascade keeps the per-view invariant everywhere. */
  lemma {:induction false} CascadeKeepsInv(t: Tree, v: bool)
    requires TreeInv(t)
    ensures TreeInv(Cascade(t, v))
  {
    var u := Cascade(t, v);
    forall i | 0 <= i < |u.kids| ensures TreeInv(u.kids[i]) {
      if !HasRoute(t.kids[i]) {
        CascadeKeepsInv(t.kids[i], v);
      }
    }
  }

  /** The cascade keeps the shape of the tree and loses nothing. */
  lemma {:induction false} CascadeProgress(t: Tree, v: bool)
    ensures Progress(t, Cascade(t, v)) && SameShape(t, Cascade(t, v))
  {
    var u := Cascade(t, v);
    forall i | 0 <= i < |t.kids|
      ensures Progress(t.kids[i], u.kids[i]) && SameShape(t.kids[i], u.kids[i])
    {
      if HasRoute(t.kids[i]) {
        ProgressRefl(t.kids[i]);
        SameShapeRefl(t.kids[i]);
      } else {
        CascadeProgress(t.kids[i], v);
      }
    }
  }

  /**
   * `_routed` leaves the view active, with its route-less subtree activated
   * and gated, runs `routed` once on the view, and leaves a route-bound child
   * that was inactive untouched.
   */
  lemma RoutedActivates(t: Tree)
    ensures Routed(t).root.isActive && Activated(Routed(t)) && Mirrors(Routed(t), true)
    ensures Routed(t).root.calls.routed == t.root.calls.routed + 1
    ensures |Routed(t).kids| == |t.kids|
    ensures forall i :: 0 <= i < |t.kids| && HasRoute(t.kids[i]) && !t.kids[i].root.isActive ==>
              Routed(t).kids[i] == t.kids[i]
  {
    var mid := Tree(RoutedRoot(t.root), RoutedKids(t.kids));
    CascadeActivates(mid);
    CascadeMirrors(mid, true);
  }

  /** `_routed` keeps the per-view invariant everywhere. */
  lemma {:induction false} RoutedKeepsInv(t: Tree)
    requires TreeInv(t)
    ensures TreeInv(Routed(t))
  {
    var mid := Tree(RoutedRoot(t.root), RoutedKids(t.kids));
    forall i | 0 <= i < |mid.kids| ensures TreeInv(mid.kids[i]) {
      if t.kids[i].root.isActive {
        RoutedKeepsInv(t.kids[i]);
      }
    }
    CascadeKeepsInv(mid, true);
  }

  /** `_routed` keeps the shape of the tree and loses nothing. */
  lemma {:induction false} RoutedProgress(t: Tree)
    ensures Progress(t, Routed(t)) && SameShape(t, Routed(t))
  {
    var mid := Tree(RoutedRoot(t.root), RoutedKids(t.kids));
    forall i | 0 <= i < |t.kids|
      ensures Progress(t.kids[i], mid.kids[i]) && SameShape(t.kids[i], mid.kids[i])
    {
      if t.kids[i].root.isActive {
        RoutedProgress(t.kids[i]);
      } else {
        ProgressRefl(t.kids[i]);
        SameShapeRefl(t.kids[i]);
      }
    }
    CascadeProgress(mid, true);
    ProgressTrans(t, mid, Routed(t));
    SameShapeTrans(t, mid, Routed(t));
  }

  lemma {:induction false} RoutedCountsKeptRefl(t: Tree)
    ensures RoutedCountsKept(t, t)
  {
    forall i | 0 <= i < |t.kids| ensures RoutedCountsKept(t.kids[i], t.kids[i]) {
      RoutedCountsKeptRefl(t.kids[i]);
    }
  }

  /** The activation hook never runs `routed` anywhere in the tree. */
  lemma {:induction false} CascadeKeepsRouted(t: Tree, v: bool)
    ensures RoutedCountsKept(t, Cascade(t, v))
  {
    var u := Cascade(t, v);
    forall i | 0 <= i < |t.kids| ensures RoutedCountsKept(t.kids[i], u.kids[i]) {
      if HasRoute(t.kids[i]) {
        RoutedCountsKeptRefl(t.kids[i]);
      } else {
        CascadeKeepsRouted(t.kids[i], v);
      }
    }
  }

  /**
   * `_routed` recurses only into the children active when the walk reaches
   * them: each of those runs `routed` exactly once more, while in the subtree
   * of every other child (even one the final write then activates) no view
   * runs `routed` at all.
   */
  lemma RoutedOnlyActive(t: Tree)
    ensures |Routed(t).kids| == |t.kids|
    ensures forall i :: 0 <= i < |t.kids| && t.kids[i].root.isActive ==>
              Routed(t).kids[i].root.calls.routed == t.kids[i].root.calls.routed + 1
    ensures forall i :: 0 <= i < |t.kids| && !t.kids[i].root.isActive ==>
              RoutedCountsKept(t.kids[i], Routed(t).kids[i])
  {
    var mid := Tree(RoutedRoot(t.root), RoutedKids(t.kids));
    var u := Routed(t);
    forall i | 0 <= i < |t.kids|
      ensures t.kids[i].root.isActive ==>
                u.kids[i].root.calls.routed == t.kids[i].root.calls.routed + 1
      ensures !t.kids[i].root.isActive ==> RoutedCountsKept(t.kids[i], u.kids[i])
    {
      var k := mid.kids[i];
      if t.kids[i].root.isActive {
        RoutedActivates(t.kids[i]);
        CascadeKeepsRouted(k, true);
      } else if HasRoute(k) {
        RoutedCountsKeptRefl(k);
      } else {
        CascadeKeepsRouted(k, true);
      }
    }
  }
}
