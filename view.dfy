/**
 * The `View` objects of src/mvc/View.js and the part of the application they
 * share: the `_initializingView` slot and the history that `route` navigates.
 *
 * Each method does what its JavaScript counterpart does, field by field, and
 * is proved against the value-level specification: `Local()` is the view's
 * own state as a `Lifecycle.ViewState`, `Model()` the whole subtree as a
 * `ViewTree.Tree`.
 */
module Views {
  import opened Lifecycle
  import opened ViewTree
  import Routing

  /** The application's `_initializingView` slot and the view's `_initialized`
      and `_initCalled` flags at the moment `init` was entered. */
  datatype InitEntry = NotEntered | Entered(slot: View?, initialized: bool, initCalled: bool)

  /** A record of the views that entered `_tryInitialize`, oldest first: a list
      that grows at its end. */
  datatype Log = Start | Then(before: Log, last: View)

  /** The entries of `a`, then those of `b`. */
  ghost function Concat(a: Log, b: Log): (r: Log) {
    match b
    case Start => a
    case Then(e, v) => Then(Concat(a, e), v)
  }

  /** Every entry of `log` names a view in `s`. */
  ghost predicate Within(log: Log, s: set<View>) {
    match log
    case Start => true
    case Then(e, v) => v in s && Within(e, s)
  }

  lemma {:induction false} ConcatAssoc(a: Log, b: Log, c: Log)
    ensures Concat(Concat(a, b), c) == Concat(a, Concat(b, c))
  {
    match c
    case Start =>
    case Then(e, v) => ConcatAssoc(a, b, e);
  }

  lemma {:induction false} WithinMono(log: Log, s: set<View>, t: set<View>)
    requires Within(log, s) && s <= t
    ensures Within(log, t)
  {
    match log
    case Start =>
    case Then(e, v) => WithinMono(e, s, t);
  }

  lemma {:induction false} WithinConcat(a: Log, b: Log, s: set<View>)
    requires Within(a, s) && Within(b, s)
    ensures Within(Concat(a, b), s)
  {
    match b
    case Start =>
    case Then(e, v) => WithinConcat(a, e, s);
  }

  /** One more step of a walk over the children: its entries join the walk's log. */
  lemma LogStep(g0: Log, g: Log, log: Log, step: Log, s: set<View>)
    requires g == Concat(Concat(g0, log), step) && Within(log, s) && Within(step, s)
    ensures g == Concat(g0, Concat(log, step)) && Within(Concat(log, step), s)
  {
    ConcatAssoc(g0, log, step);
    WithinConcat(log, step, s);
  }

  /** A child `c`, with footprint `t` inside `s`, that ran the hook: its
      descendants' entries, then its own. */
  lemma LogHook(g0: Log, g: Log, own: Log, c: View, t: set<View>, s: set<View>)
    requires g == Then(Concat(g0, own), c) && Within(own, t - {c}) && c in t && t <= s
    ensures g == Concat(g0, Then(own, c)) && Within(Then(own, c), s)
  {
    WithinMono(own, t - {c}, s);
  }

  /** A child `c`, with footprint `t` inside `s`, that was routed: its own
      entry, its descendants', its own again. */
  lemma LogRoute(g0: Log, g: Log, own: Log, c: View, t: set<View>, s: set<View>)
    requires g == Then(Concat(Then(g0, c), own), c) && Within(own, t - {c}) && c in t && t <= s
    ensures g == Concat(g0, Then(Concat(Then(Start, c), own), c))
    ensures Within(Then(Concat(Then(Start, c), own), c), s)
  {
    ConcatAssoc(g0, Then(Start, c), own);
    WithinMono(own, t - {c}, s);
    WithinConcat(Then(Start, c), own, s);
  }

  /** `_routed` on the view `c` itself: its own entry, its descendants', its own again. */
  lemma LogRouted(g0: Log, g: Log, down: Log, hook: Log, c: View, s: set<View>)
    requires g == Then(Concat(Concat(Then(g0, c), down), hook), c) && Within(down, s) && Within(hook, s)
    ensures g == Then(Concat(Then(g0, c), Concat(down, hook)), c) && Within(Concat(down, hook), s)
  {
    ConcatAssoc(Then(g0, c), down, hook);
    WithinConcat(down, hook, s);
  }

  class App {
    /** `_initializingView`: the view whose `init` is running, or null. */
    var initializingView: View?
    /** The paths handed to the history's `navigate`, oldest first. */
    ghost var navigated: seq<string>
    /** The views that entered `_tryInitialize`, in the order they entered it. */
    ghost var gates: Log

    constructor ()
      ensures initializingView == null && navigated == [] && gates == Start
    {
      initializingView := null;
      navigated := [];
      gates := Start;
    }
  }

  class View {
    const app: App
    /** `parentView()`: the view this one was declared inside, if any. */
    const parentView: View?
    const opts: Options
    var isActive: bool
    var loading: bool
    var initialized: bool
    var initCalled: bool
    var html: Option<string>
    /** `_views`, in the order the application added them. */
    var children: seq<View>
    /** The effects on the outside world, counted. */
    ghost var calls: Calls
    /** What held when `init` was entered, once it has been. */
    ghost var initEntry: InitEntry
    /** This view and all its descendants. */
    ghost var Repr: set<View>

    /** The children form a tree below this view: each owns a footprint of its
        own, disjoint from its siblings', and points back here as its parent. */
    ghost predicate Valid()
      reads this`children, this`Repr, Repr`children, Repr`Repr
      decreases Repr
    {
      this in Repr &&
      (forall i :: 0 <= i < |children| ==>
         children[i] in Repr && children[i].Repr <= Repr && this !in children[i].Repr &&
         children[i].app == app && children[i].parentView == this && children[i].Valid()) &&
      (forall i, j :: 0 <= i < j < |children| ==> children[i].Repr !! children[j].Repr)
    }

    /** This view's own state. */
    ghost function Local(): ViewState
      reads this
    {
      ViewState(opts, isActive, loading, initialized, initCalled, html, calls)
    }

    /** This view and its descendants. */
    ghost function Model(): (t: Tree)
      requires Valid()
      reads this, Repr
      decreases Repr, 1
    {
      Tree(Local(), KidModels(|children|))
    }

    /** The models of the first `n` children. */
    ghost function KidModels(n: nat): (ks: seq<Tree>)
      requires Valid() && n <= |children|
      reads this`children, this`Repr, Repr - {this}
      ensures |ks| == n
      ensures forall i {:trigger ks[i]} :: 0 <= i < n ==> ks[i] == children[i].Model()
      decreases Repr, 0, n
    {
      if n == 0 then [] else KidModels(n - 1) + [children[n - 1].Model()]
    }

    /** `View(application, parentView, prototype)`, with the options of the prototype. */
    constructor (application: App, parent: View?, options: Options)
      ensures Valid() && Repr == {this} && children == []
      ensures app == application && parentView == parent && opts == options
      ensures Model() == Tree(Fresh(options), [])
      ensures initEntry == NotEntered
    {
      app := application;
      parentView := parent;
      opts := options;
      children := [];
      initCalled := false;
      html := None;
      loading := false;
      isActive := !Truthy(options.route);
      initialized := false;
      calls := NoCalls;
      initEntry := NotEntered;
      Repr := {this};
      new;
      if options.preload || isActive {
        Load();
      }
    }

    /** The application adding a view constructed with this parent to `_views`. */
    method Attach(c: View)
      requires Valid() && c.Valid()
      requires c.app == app && c.parentView == this && Repr !! c.Repr
      modifies this`children, this`Repr
      ensures Valid() && children == old(children) + [c] && Repr == old(Repr) + c.Repr
      ensures Model() == Tree(old(Model()).root, old(Model()).kids + [c.Model()])
    {
      ghost var kids := KidModels(|children|);
      children := children + [c];
      Repr := Repr + c.Repr;
      assert Model().kids == kids + [c.Model()];
    }

    /** `route(...segments)`: navigate to the joined path; returns the view. */
    method Route(segments: seq<string>) returns (r: View)
      modifies app`navigated
      ensures r == this
      ensures app.navigated == old(app.navigated) + [Routing.Join(segments)]
    {
      app.navigated := app.navigated + [Routing.Join(segments)];
      r := this;
    }

    /** `_callInit`: run `init` once; `_initCalled` is committed after it returns. */
    method CallInit()
      modifies this`initCalled, this`calls, this`initEntry
      ensures Local() == Lifecycle.CallInit(old(Local()))
      ensures initEntry ==
                if old(initCalled) then old(initEntry)
                else Entered(app.initializingView, initialized, false)
    {
      if initCalled {
        return;
      }
      calls := calls.(init := calls.init + 1);
      initEntry := Entered(app.initializingView, initialized, initCalled);
      initCalled := true;
    }

    /** `_load`: one request at a time, guarded by `loading`. */
    method Load()
      modifies this`loading, this`calls
      ensures Local() == Lifecycle.Load(old(Local()))
    {
      if Truthy(opts.url) && !loading {
        loading := true;
        calls := calls.(fetched := calls.fetched + 1);
      }
    }

    /** `_tryInitialize(v)`: the initialisation gate. A url-bound view without
        content runs `init` and loads; any other view is marked initialised,
        runs `init` with the slot holding it, and the slot is then cleared. */
    method TryInitialize(v: bool)
      modifies this`initialized, this`initCalled, this`loading, this`calls, this`initEntry
      modifies app`initializingView, app`gates
      ensures Local() == TryInit(old(Local()), v)
      ensures app.initializingView ==
                if InitBranch(old(Local()), v) then null else old(app.initializingView)
      ensures initEntry ==
                if old(initCalled) || old(initialized) || !v then old(initEntry)
                else if InitBranch(old(Local()), v) then Entered(this, true, false)
                else Entered(old(app.initializingView), false, false)
      ensures app.gates == Then(old(app.gates), this)
    {
      app.gates := Then(app.gates, this);
      if !initialized && v {
        if Truthy(opts.url) && !Truthy(html) {
          CallInit();
          Load();
        } else {
          initialized := true;
          app.initializingView := this;
          CallInit();
          app.initializingView := null;
          if isActive {
            calls := calls.(updates := calls.updates + 1);
          }
        }
      }
    }

    /** Whatever changes outside this view's footprint leaves its model as it was. */
    twostate lemma ModelFrame()
      requires old(Valid())
      requires forall o :: o in old(Repr) ==> unchanged(o)
      ensures Valid() && Model() == old(Model())
    {
    }

    /** A change confined to the footprint of child `k` leaves every other
        child's model as it was. */
    twostate lemma SiblingsFrame(k: int)
      requires old(Valid()) && Valid() && 0 <= k < |old(children)|
      requires unchanged(this`children, this`Repr)
      requires forall o :: o in old(Repr) && o !in old(children[k].Repr) && o != this ==> unchanged(o)
      ensures forall j :: 0 <= j < |children| && j != k ==>
                children[j].Model() == old(children[j].Model())
    {
      forall j | 0 <= j < |children| && j != k
        ensures children[j].Model() == old(children[j].Model())
      {
        assert old(children[j].Repr !! children[k].Repr);
        children[j].ModelFrame();
      }
    }

    /** A change confined to this view's own fields leaves every child's model as it was. */
    twostate lemma ChildrenFrame()
      requires old(Valid())
      requires unchanged(this`children, this`Repr)
      requires forall o :: o in old(Repr) && o != this ==> unchanged(o)
      ensures Valid() && Model().kids == old(Model()).kids
    {
      forall j | 0 <= j < |children|
        ensures children[j].Model() == old(children[j].Model())
      {
        children[j].ModelFrame();
      }
    }

    /** Writing `v` to `isActive`: store it, then run the 'changing' hook. */
    method SetActive(v: bool) returns (ghost log: Log)
      requires Valid()
      modifies Repr`isActive, Repr`loading, Repr`initialized, Repr`initCalled
      modifies Repr`calls, Repr`initEntry, app`initializingView, app`gates
      decreases Repr, 3
      ensures Valid()
      ensures Model() == Cascade(old(Model()), v)
      ensures app.initializingView in {null, old(app.initializingView)}
      ensures app.gates == Then(Concat(old(app.gates), log), this) && Within(log, Repr - {this})
    {
      label Store:
      isActive := v;
      ChildrenFrame@Store();
      log := Changing(v);
    }

    /** The 'changing' hook with the new value `v` already stored: write `v` to
        every route-less child, then try to initialise with `v`. Every gate
        entry the children's hooks cause (`log`, all below this view) comes
        before the view's own. */
    method Changing(v: bool) returns (ghost log: Log)
      requires Valid() && isActive == v
      modifies Repr`isActive, Repr`loading, Repr`initialized, Repr`initCalled
      modifies Repr`calls, Repr`initEntry, app`initializingView, app`gates
      decreases Repr, 2
      ensures Valid()
      ensures Local() == TryInit(old(Local()), v)
      ensures Model().kids == CascadeKids(old(Model()).kids, v)
      ensures app.initializingView in {null, old(app.initializingView)}
      ensures app.gates == Then(Concat(old(app.gates), log), this) && Within(log, Repr - {this})
    {
      log := Propagate(v);
      Gate(v);
    }

    /** The hook's call of `_tryInitialize(v)`, which leaves the children alone. */
    method Gate(v: bool)
      requires Valid()
      modifies this`initialized, this`initCalled, this`loading, this`calls, this`initEntry
      modifies app`initializingView, app`gates
      ensures Valid() && Model().kids == old(Model()).kids
      ensures Local() == TryInit(old(Local()), v)
      ensures app.initializingView ==
                if InitBranch(old(Local()), v) then null else old(app.initializingView)
      ensures app.gates == Then(old(app.gates), this)
    {
      label Enter:
      TryInitialize(v);
      ChildrenFrame@Enter();
    }

    /** The hook's walk over `_views`: write `v` to each child that has no route. */
    method Propagate(v: bool) returns (ghost log: Log)
      requires Valid()
      modifies Repr`isActive, Repr`loading, Repr`initialized, Repr`initCalled
      modifies Repr`calls, Repr`initEntry, app`initializingView, app`gates
      decreases Repr, 1
      ensures Valid() && Local() == old(Local())
      ensures Model().kids == CascadeKids(old(Model()).kids, v)
      ensures app.initializingView in {null, old(app.initializingView)}
      ensures app.gates == Concat(old(app.gates), log) && Within(log, Repr - {this})
    {
      ghost var k0 := Model().kids;
      ghost var k1 := CascadeKids(k0, v);
      log := Start;
      var i := 0;
      while i < |children|
        invariant 0 <= i <= |children|
        invariant Local() == old(Local())
        invariant forall j :: 0 <= j < i ==> children[j].Model() == k1[j]
        invariant forall j :: i <= j < |children| ==> children[j].Model() == k0[j]
        invariant app.initializingView in {null, old(app.initializingView)}
        invariant app.gates == Concat(old(app.gates), log) && Within(log, Repr - {this})
      {
        ghost var step := PropagateTo(i, v);
        LogStep(old(app.gates), app.gates, log, step, Repr - {this});
        log := Concat(log, step);
        assert children[i].Model() == k1[i];
        i := i + 1;
      }
      assert Model().kids == k1;
    }

    /** One step of the walk: write `v` to child `k` unless it has a route. */
    method PropagateTo(k: int, v: bool) returns (ghost log: Log)
      requires Valid() && 0 <= k < |children|
      modifies Repr`isActive, Repr`loading, Repr`initialized, Repr`initCalled
      modifies Repr`calls, Repr`initEntry, app`initializingView, app`gates
      decreases Repr, 0
      ensures Valid() && Local() == old(Local())
      ensures children[k].Model() == CascadeStep(old(children[k].Model()), v)
      ensures forall j :: 0 <= j < |children| && j != k ==>
                children[j].Model() == old(children[j].Model())
      ensures app.initializingView in {null, old(app.initializingView)}
      ensures app.gates == Concat(old(app.gates), log) && Within(log, Repr - {this})
    {
      var c := children[k];
      assert c.Model().root == c.Local();
      label Before:
      log := Start;
      if !Truthy(c.opts.route) {
        ghost var g0 := app.gates;
        ghost var own := c.SetActive(v);
        LogHook(g0, app.gates, own, c, c.Repr, Repr - {this});
        log := Then(own, c);
      }
      SiblingsFrame@Before(k);
    }

    /** `_routed`: force the gate, run `routed`, route the active children,
        then write `true` to `isActive`. */
    method Routed() returns (ghost log: Log)
      requires Valid()
      modifies Repr`isActive, Repr`loading, Repr`initialized, Repr`initCalled
      modifies Repr`calls, Repr`initEntry, app`initializingView, app`gates
      decreases Repr, 5
      ensures Valid()
      ensures Model() == ViewTree.Routed(old(Model()))
      ensures app.initializingView in {null, old(app.initializingView)}
      ensures app.gates == Then(Concat(Then(old(app.gates), this), log), this) && Within(log, Repr - {this})
    {
      ghost var down := RouteDown();
      ghost var hook := SetActive(true);
      LogRouted(old(app.gates), app.gates, down, hook, this, Repr - {this});
      log := Concat(down, hook);
    }

    /** `_routed` up to the final write: the gate, `routed`, then the walk. */
    method RouteDown() returns (ghost log: Log)
      requires Valid()
      modifies Repr`isActive, Repr`loading, Repr`initialized, Repr`initCalled
      modifies Repr`calls, Repr`initEntry, app`initializingView, app`gates
      decreases Repr, 4
      ensures Valid()
      ensures Local() == RoutedRoot(old(Local()))
      ensures Model().kids == RoutedKids(old(Model()).kids)
      ensures app.initializingView in {null, old(app.initializingView)}
      ensures app.gates == Concat(Then(old(app.gates), this), log) && Within(log, Repr - {this})
    {
      label Gate:
      RoutedSelf();
      ChildrenFrame@Gate();
      log := RouteChildren();
    }

    /** The view's own part of `_routed`: the gate with `true`, then `routed`. */
    method RoutedSelf()
      modifies this`initialized, this`initCalled, this`loading, this`calls, this`initEntry
      modifies app`initializingView, app`gates
      ensures Local() == RoutedRoot(old(Local()))
      ensures app.initializingView in {null, old(app.initializingView)}
      ensures app.gates == Then(old(app.gates), this)
    {
      TryInitialize(true);
      calls := calls.(routed := calls.routed + 1);
    }

    /** `_routed`'s walk over `_views`: route each child that is active. */
    method RouteChildren() returns (ghost log: Log)
      requires Valid()
      modifies Repr`isActive, Repr`loading, Repr`initialized, Repr`initCalled
      modifies Repr`calls, Repr`initEntry, app`initializingView, app`gates
      decreases Repr, 1
      ensures Valid() && Local() == old(Local())
      ensures Model().kids == RoutedKids(old(Model()).kids)
      ensures app.initializingView in {null, old(app.initializingView)}
      ensures app.gates == Concat(old(app.gates), log) && Within(log, Repr - {this})
    {
      ghost var k0 := Model().kids;
      ghost var k1 := RoutedKids(k0);
      log := Start;
      var i := 0;
      while i < |children|
        invariant 0 <= i <= |children|
        invariant Local() == old(Local())
        invariant forall j :: 0 <= j < i ==> children[j].Model() == k1[j]
        invariant forall j :: i <= j < |children| ==> children[j].Model() == k0[j]
        invariant app.initializingView in {null, old(app.initializingView)}
        invariant app.gates == Concat(old(app.gates), log) && Within(log, Repr - {this})
      {
        ghost var step := RouteTo(i);
        LogStep(old(app.gates), app.gates, log, step, Repr - {this});
        log := Concat(log, step);
        i := i + 1;
      }
      assert Model().kids == k1;
    }

    /** One step of the walk: route child `k` if it is active. */
    method RouteTo(k: int) returns (ghost log: Log)
      requires Valid() && 0 <= k < |children|
      modifies Repr`isActive, Repr`loading, Repr`initialized, Repr`initCalled
      modifies Repr`calls, Repr`initEntry, app`initializingView, app`gates
      decreases Repr, 0
      ensures Valid() && Local() == old(Local())
      ensures children[k].Model() ==
                if old(children[k].isActive) then ViewTree.Routed(old(children[k].Model()))
                else old(children[k].Model())
      ensures forall j :: 0 <= j < |children| && j != k ==>
                children[j].Model() == old(children[j].Model())
      ensures app.initializingView in {null, old(app.initializingView)}
      ensures app.gates == Concat(old(app.gates), log) && Within(log, Repr - {this})
    {
      var c := children[k];
      label Before:
      log := Start;
      if c.isActive {
        ghost var g0 := app.gates;
        ghost var own := c.Routed();
        LogRoute(g0, app.gates, own, c, c.Repr, Repr - {this});
        log := Then(Concat(Then(Start, c), own), c);
      }
      SiblingsFrame@Before(k);
    }

    /** `_loaded(html)`: the request succeeded. */
    method Loaded(h: string)
      modifies this`html, this`initialized, this`initCalled, this`loading, this`calls
      modifies this`initEntry, app`initializingView, app`gates
      ensures Local() == Lifecycle.Loaded(old(Local()), h)
      ensures app.initializingView ==
                if InitBranch(old(Local()).(html := Some(h)), true) then null
                else old(app.initializingView)
      ensures app.gates == Then(old(app.gates), this)
    {
      html := Some(h);
      TryInitialize(true);
      loading := false;
      calls := calls.(settled := calls.settled + 1);
    }

    /** `_error()`: the request failed. */
    method Error()
      modifies this`loading, this`calls
      ensures Local() == Failed(old(Local()))
    {
      loading := false;
      calls := calls.(settled := calls.settled + 1);
    }
  }
}
