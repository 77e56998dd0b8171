/**
 * Any sequence of completed calls on a tree of views. Each event is addressed
 * to one node by its path of child indices from the root: a write to that
 * node's `isActive`, a call of its `_routed`, the arrival of the response
 * to its outstanding request (`_loaded(html)` or `_error()`), or a newly
 * constructed child view added to its `_views`.
 *
 * The theorems here are the "over any sequence" forms of the per-call
 * contracts: the per-view invariant holds forever (so `init` has run at most
 * once and at most one request is in flight on every view), and nothing a
 * view has gained (`_initCalled`, `_initialized`, its call counts) is ever lost.
 */
module ViewTrace {
  import opened Lifecycle
  import opened ViewTree

  /** A write to `isActive`, a call of `_routed`, a response to the outstanding
      request, or the application adding a newly constructed child view (as it
      does for views declared inside this one, typically while its `init` runs). */
  datatype Action = Activate(v: bool) | Route | Respond(html: string) | Fail | Attach(opts: Options)

  datatype Event = Event(path: seq<nat>, action: Action)

  /** The effect of one action on the node it is addressed to. A response is
      only delivered to a view with a request outstanding; otherwise there is
      no callback and nothing happens. */
  function Step(t: Tree, a: Action): (u: Tree)
    ensures |u.kids| >= |t.kids|
    ensures u.root.opts == t.root.opts
  {
    match a
    case Activate(v) => Cascade(t, v)
    case Route => Routed(t)
    case Respond(h) => if t.root.loading then Tree(Loaded(t.root, h), t.kids) else t
    case Fail => if t.root.loading then Tree(Failed(t.root), t.kids) else t
    case Attach(o) => Tree(t.root, t.kids + [Tree(Fresh(o), [])])
  }

  /** The action applied to the node at `path`; a path that names no node
      changes nothing. */
  function ApplyAt(t: Tree, path: seq<nat>, a: Action): (u: Tree)
    ensures |u.kids| >= |t.kids|
    decreases |path|
  {
    if |path| == 0 then Step(t, a)
    else if path[0] < |t.kids| then
      Tree(t.root, t.kids[path[0] := ApplyAt(t.kids[path[0]], path[1..], a)])
    else t
  }

  /** The events, in order. */
  function Run(t: Tree, es: seq<Event>): (u: Tree)
    decreases |es|
  {
    if |es| == 0 then t
    else Run(ApplyAt(t, es[0].path, es[0].action), es[1..])
  }

  /** The tree an application builds from its view definitions: every node
      as its constructor leaves it. */
  ghost predicate Constructed(t: Tree) {
    t.root == Fresh(t.root.opts) &&
    forall i :: 0 <= i < |t.kids| ==> Constructed(t.kids[i])
  }

  /** On every view, `init` has run at most once and at most one request is
      in flight. */
  ghost predicate Bounded(t: Tree) {
    t.root.calls.init <= 1 &&
    t.root.calls.fetched - t.root.calls.settled <= 1 &&
    forall i :: 0 <= i < |t.kids| ==> Bounded(t.kids[i])
  }

  lemma {:induction false} ConstructedInv(t: Tree)
    requires Constructed(t)
    ensures TreeInv(t)
  {
    forall i | 0 <= i < |t.kids| ensures TreeInv(t.kids[i]) {
      ConstructedInv(t.kids[i]);
    }
  }

  lemma {:induction false} InvBounded(t: Tree)
    requires TreeInv(t)
    ensures Bounded(t)
  {
    forall i | 0 <= i < |t.kids| ensures Bounded(t.kids[i]) {
      InvBounded(t.kids[i]);
    }
  }

  lemma StepKeepsInv(t: Tree, a: Action)
    requires TreeInv(t)
    ensures TreeInv(Step(t, a))
  {
    match a
    case Activate(v) => CascadeKeepsInv(t, v);
    case Route => RoutedKeepsInv(t);
    case Respond(h) =>
    case Fail =>
    case Attach(o) =>
      var u := Step(t, a);
      assert TreeInv(u.kids[|t.kids|]);
  }

  lemma StepProgress(t: Tree, a: Action)
    ensures Progress(t, Step(t, a))
  {
    match a
    case Activate(v) => CascadeProgress(t, v);
    case Route => RoutedProgress(t);
    case Respond(h) => ProgressRefl(t);
    case Fail => ProgressRefl(t);
    case Attach(o) =>
      forall i | 0 <= i < |t.kids| ensures Progress(t.kids[i], t.kids[i]) {
        ProgressRefl(t.kids[i]);
      }
  }

  lemma {:induction false} ApplyAtKeepsInv(t: Tree, path: seq<nat>, a: Action)
    requires TreeInv(t)
    ensures TreeInv(ApplyAt(t, path, a))
    decreases |path|
  {
    if |path| == 0 {
      StepKeepsInv(t, a);
    } else if path[0] < |t.kids| {
      ApplyAtKeepsInv(t.kids[path[0]], path[1..], a);
    }
  }

  lemma {:induction false} ApplyAtProgress(t: Tree, path: seq<nat>, a: Action)
    ensures Progress(t, ApplyAt(t, path, a))
    decreases |path|
  {
    if |path| == 0 {
      StepProgress(t, a);
    } else if path[0] < |t.kids| {
      ApplyAtProgress(t.kids[path[0]], path[1..], a);
      forall i | 0 <= i < |t.kids| && i != path[0] ensures Progress(t.kids[i], t.kids[i]) {
        ProgressRefl(t.kids[i]);
      }
    } else {
      ProgressRefl(t);
    }
  }

  /** Whatever the events, every view, including every view attached on the
      way, keeps the per-view invariant. */
  lemma {:induction false} RunKeepsInv(t: Tree, es: seq<Event>)
    requires TreeInv(t)
    ensures TreeInv(Run(t, es))
    decreases |es|
  {
    if |es| > 0 {
      ApplyAtKeepsInv(t, es[0].path, es[0].action);
      RunKeepsInv(ApplyAt(t, es[0].path, es[0].action), es[1..]);
    }
  }

  /** Whatever the events, no view ever loses `_initCalled`, `_initialized`
      or a call it has made, and every view stays in place. */
  lemma {:induction false} RunProgress(t: Tree, es: seq<Event>)
    ensures Progress(t, Run(t, es))
    decreases |es|
  {
    if |es| > 0 {
      var u := ApplyAt(t, es[0].path, es[0].action);
      ApplyAtProgress(t, es[0].path, es[0].action);
      RunProgress(u, es[1..]);
      ProgressTrans(t, u, Run(u, es[1..]));
    } else {
      ProgressRefl(t);
    }
  }

  /** From construction on, over any sequence of calls, `init` runs at most
      once on each view and each view has at most one request in flight. */
  lemma InitAtMostOnce(t: Tree, es: seq<Event>)
    requires Constructed(t)
    ensures Bounded(Run(t, es)) && TreeInv(Run(t, es))
  {
    ConstructedInv(t);
    RunKeepsInv(t, es);
    InvBounded(Run(t, es));
  }
}
