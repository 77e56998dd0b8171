# View activation in jsblocks, modelled in Dafny

This project models the view-activation state machine of the jsblocks MVC
layer, `src/mvc/View.js`. Each `View` carries the flags `isActive` and
`loading`, the private `_initialized`, `_initCalled` and `_html`, and the list
of child views `_views`. The operations that move a view between states are:

- its constructor;
- the `'changing'` hook on `isActive`, which pushes an activation value down
  to every child without a route of its own and then enters the
  initialisation gate;
- the gate itself (`_tryInitialize`, `_callInit`);
- the loader (`_load`, `_loaded`, `_error`);
- the routing cascade `_routed`;
- `route`, which joins its arguments with `/` and navigates.

The project has five modules:

- `Lifecycle` (`state.dfy`): the state of one view as a value, and each
  node-local operation as a function on it. `Inv` is the per-view invariant:
  - `init` has run exactly when `_initCalled` is set;
  - an initialised url-bound view holds content;
  - `loading` holds exactly while one request is outstanding.
- `ViewTree` (`tree.dfy`): a view and its descendants as a value.
  - `Cascade` is the hook.
  - `Routed` is `_routed`.
  - Lemmas cover mirroring, activation, the invariant and monotone progress.
- `Views` (`view.dfy`): the `App` and `View` classes. Every method updates the
  fields the JavaScript updates and is proved against the value-level
  functions through `Local()` (the view's own state) and `Model()` (its
  subtree). The loops over `_views` are `while` loops.
- `Routing` (`route.dfy`): the path `route` builds, with its inverse.
- `ViewTrace` (`trace.dfy`): any sequence of completed calls on a tree, and of
  newly constructed views added to it. Here the per-call contracts become
  "forever" properties: `init` runs at most once and at most one request is
  in flight.

Effects on the outside world are counted in a ghost `Calls` record:

- runs of `init` and `routed`;
- requests issued and answered;
- `isActive.update()` notifications.

The application also keeps a ghost log of the views that entered
`_tryInitialize`, in order. It shows the order of a cascade: the hook's gate
entries for the descendants come before the view's own.

The model follows the code where a reader might expect otherwise. A view with
a `url` and no `route` starts active, because `isActive` is initialised from
`!options.route` (View.js:23), whatever its parent's state. Its constructor
therefore issues the request at once (View.js:33-35), even under an inactive
parent; it does not wait for the parent's activation.

## Model

| member | source | states |
|---|---|---|
| Lifecycle.Fresh | src/mvc/View.js:10-36 | A new view is active exactly when it has no route. It is loading exactly when it has a url and is preloaded or active, with one request issued. It is neither initialised nor has it run `init`. It satisfies the per-view invariant. |
| Lifecycle.CallInit | src/mvc/View.js:147-165 | `init` runs only if `_initCalled` was clear, and then exactly once. Afterwards `_initCalled` is set. A second call changes nothing. No other flag moves. |
| Lifecycle.Load | src/mvc/View.js:167-177 | Without a url, or while already loading, nothing changes. Otherwise `loading` becomes true and exactly one request is issued, so at most one is ever in flight. It keeps the invariant on a view not yet initialised. |
| Lifecycle.TryInit | src/mvc/View.js:119-134 | With `false`, or on an initialised view, nothing changes. Otherwise `init` runs if it has not. The view becomes initialised exactly when it has no url or holds truthy content; otherwise it is loading. On the initialising branch, `loading` and the requests are untouched and one `isActive.update()` is counted exactly when the view is active. On no other path is one counted. It keeps the invariant. |
| Lifecycle.TryInitRepeated | src/mvc/View.js:119-120 | Entering the gate with `true` any number of times (at least once) has the effect of one entry. On a view that has not run `init`, it runs exactly once. |
| Lifecycle.TryInitIdempotent | src/mvc/View.js:119-120 | Entering the gate with `true` twice equals entering it once. |
| Lifecycle.Loaded | src/mvc/View.js:179-183 | Stores the content and leaves `loading` false, answering one request. It never re-runs `init` once it has run. Answering the outstanding request keeps the invariant: `init` has run, and the view is initialised exactly when the content is non-empty. |
| Lifecycle.Failed | src/mvc/View.js:185-187 | Only `loading` becomes false and one request is answered. Content, `_initialized` and `_initCalled` are unchanged, and so is the invariant. |
| ViewTree.Cascade | src/mvc/View.js:24-31 | Writing `v` leaves the view holding `v` with its options, and with as many children. A child with a route of its own is left exactly as it was. |
| ViewTree.CascadeMirrors | src/mvc/View.js:24-31 | After writing `v`, the view and every descendant reached through route-less children hold `v`. A child with its own route is left exactly as it was. |
| ViewTree.CascadeActivates | src/mvc/View.js:24-31 | Writing `true` leaves every view in the route-less subtree active. Each of them is initialised, or has run `init` and is loading its content. |
| ViewTree.CascadeOffOnlyFlips | src/mvc/View.js:24-31 | Writing `false` changes nothing in the tree but `isActive`. |
| ViewTree.CascadeKeepsInv | src/mvc/View.js:24-31 | The hook keeps the per-view invariant on every node. |
| ViewTree.CascadeProgress | src/mvc/View.js:24-31 | The hook keeps the tree's shape: every node has as many children as before. It keeps every view's options. No view loses `_initCalled`, `_initialized` or a counted call, `update()` included. |
| ViewTree.Routed | src/mvc/View.js:136-145 | After `_routed` the view is active, keeps its options and its number of children, and has run `routed` exactly once more. |
| ViewTree.RoutedRoot | src/mvc/View.js:137-138 | The view's own part of `_routed` runs `routed` once. Under the invariant, `init` has then run and the view is initialised or loading. |
| ViewTree.RoutedActivates | src/mvc/View.js:136-145 | After `_routed` the view is active and its route-less subtree is active and gated. `routed` ran once on it. A routed child that was inactive is untouched. |
| ViewTree.RoutedOnlyActive | src/mvc/View.js:139-143 | `_routed` keeps the number of children. Each child active when the walk reaches it runs `routed` once more. In the subtree of every other child, no view runs `routed`, even where the final write activates it. |
| ViewTree.CascadeKeepsRouted | src/mvc/View.js:24-31 | The hook never runs `routed` anywhere in the tree, and keeps the tree's shape. |
| ViewTree.RoutedKeepsInv | src/mvc/View.js:136-145 | `_routed` keeps the per-view invariant on every node. |
| ViewTree.RoutedProgress | src/mvc/View.js:136-145 | `_routed` keeps the tree's shape: every node has as many children as before. It loses nothing any view has gained: no flag and no counted call, `update()` included. |
| Routing.Join | src/mvc/View.js:111 | No segments give the empty path. The path starts with the first segment, and when there are more, a `/` follows it. |
| Routing.JoinSplit | src/mvc/View.js:110-113 | Splitting any path at `/` and joining the pieces gives the path back. |
| Routing.SplitJoin | src/mvc/View.js:110-113 | A non-empty list of segments without `/` is recovered from the path `route` builds from it. |
| ViewTrace.ConstructedInv | src/mvc/View.js:20-35 | A tree of freshly constructed views satisfies the invariant everywhere. |
| ViewTrace.RunKeepsInv | src/mvc/View.js:119-187 | After any sequence of activations, routings, responses and newly constructed child views, addressed to any views, every view satisfies the invariant. That includes every view added on the way. |
| ViewTrace.RunProgress | src/mvc/View.js:147-165 | Over any sequence of calls and additions, no view ever loses `_initCalled`, `_initialized` or a counted call, `update()` included. Every view stays in its place, and children are only ever added. |
| ViewTrace.InitAtMostOnce | src/mvc/View.js:147-177 | From construction on, over any sequence of calls and additions, every view has run `init` at most once and has at most one request in flight. |
| Views.View.constructor | src/mvc/View.js:10-36 | The new view has no children, the given application, parent and options, and the state `Lifecycle.Fresh` gives. |
| Views.View.Route | src/mvc/View.js:110-113 | Navigates to the segments joined with `/` and returns the view itself. |
| Views.View.CallInit | src/mvc/View.js:147-165 | The view's state becomes `Lifecycle.CallInit` of the old one. When `init` is entered, the slot and `_initialized` are as they were and `_initCalled` is still clear. The flag is set only after `init` returns. |
| Views.View.Load | src/mvc/View.js:167-177 | The view's state becomes `Lifecycle.Load` of the old one. |
| Views.View.TryInitialize | src/mvc/View.js:119-134 | The view's state becomes `Lifecycle.TryInit` of the old one, and the view is logged as entering the gate. On the initialising branch, `_initialized` is already set, `_initCalled` is clear and the slot holds the view when `init` is entered; afterwards the slot is null, not restored. Otherwise the slot is untouched. |
| Views.View.SetActive | src/mvc/View.js:24-31 | Writing `v` to `isActive` turns the subtree into `ViewTree.Cascade` of the old one, and the tree stays well formed. The view's own gate entry is logged last, after entries for its descendants only. |
| Views.View.Changing | src/mvc/View.js:24-31 | With `v` stored, the hook turns the children into their cascaded forms. Only then does it pass the view itself through the gate with `v`: the log gains entries for descendants only, then the view's own entry. |
| Views.View.Gate | src/mvc/View.js:30 | The hook's call of the gate changes the view's state as `Lifecycle.TryInit` says. It leaves every child's subtree as it was and logs one entry, for the view. |
| Views.View.Propagate | src/mvc/View.js:25-29 | The loop over `_views` writes `v` to exactly the route-less children and leaves the view's own state alone. Every gate entry it logs is for a descendant. |
| Views.View.PropagateTo | src/mvc/View.js:26-28 | One iteration changes child `k` as the cascade says, and no sibling. It logs gate entries for descendants only. |
| Views.View.Routed | src/mvc/View.js:136-145 | `_routed` turns the subtree into `ViewTree.Routed` of the old one. The view is logged at the gate first and last, with only descendants between. |
| Views.View.RouteDown | src/mvc/View.js:137-143 | Up to the final write: the view's own gate and `routed`, then the walk over its children. The view's gate entry is logged before any entry for a descendant. |
| Views.View.RoutedSelf | src/mvc/View.js:137-138 | The gate with `true`, then one run of `routed`. One gate entry is logged, for the view. |
| Views.View.RouteChildren | src/mvc/View.js:139-143 | The loop routes exactly the children active when it reaches them, leaving the view's own state alone. Every gate entry it logs is for a descendant. |
| Views.View.RouteTo | src/mvc/View.js:140-142 | One iteration routes child `k` if it is active, and touches no sibling. It logs gate entries for descendants only. |
| Views.View.Loaded | src/mvc/View.js:179-183 | The view's state becomes `Lifecycle.Loaded` of the old one. The slot is cleared exactly when the gate takes its initialising branch. One gate entry is logged, for the view. |
| Views.View.Error | src/mvc/View.js:185-187 | The view's state becomes `Lifecycle.Failed` of the old one. |

## Left out

- The `ajax` transport is not modelled. A request is a counted event, and its answer is a separate call of `Loaded(html)` or `Error()`.
  - No network timing, cancellation or response body other than a string.
  - In `ViewTrace`, a response is delivered only to a view with a request outstanding, because the callbacks are bound only to an issued request.
- The internals of `blocks.observable` (`core.js`) are not part of this model.
  - A write to `isActive` is modelled as "store the value, then run the 'changing' hook with it", even when the value is unchanged. The gate's `this.isActive()` read (View.js:129) therefore sees the new value. A write of `true` to an inactive view that takes the initialising branch counts one `update()`. If the observable ran 'changing' before committing the value, that read would see `false` and no `update()` would happen.
  - `isActive.update()` is only counted; whatever it notifies is not modelled.
  - `loading(...)` is a plain field write.
- The user callbacks `init` and `routed` are modelled as no-ops counted in `Calls`.
  - Their parameters (`_initArgs`, `params`) are not modelled.
  - Neither is reentrancy from inside them, or exceptions thrown by them.
- `clonePrototype` is not modelled. A view's options arrive as an `Options` value (route, url, preload).
- The `__context__` stamping of observables and the global `blocks.__viewInInitialize__` in `_callInit` are not modelled (View.js:155-163). The `_initializingView` slot is.
- `route` appends the joined path to a ghost navigation history. The router behind `_history.navigate`, and `navigateTo`, are not part of this model.
- `Events.register` (publish/subscribe) is not modelled.
- The application adds a child to `_views` in Application.js, which is not part of this model. Here that is `View.Attach`, and the `Attach` action in `ViewTrace`.
  - `View.Attach` assembles the tree bottom-up: a view is attached after its own children, so the ancestors' footprints stay exact.
  - A `ViewTrace` addition is a freshly constructed leaf view appended to `_views`. Views are never removed.
- Views.View.SetActive: promises only null-or-unchanged for the slot, not which calls reset it. Since the slot starts null, this still gives "null between operations". The gate log is stated as entries for descendants only, not which descendants or in what order.
- Views.View.Changing: slot stated as null-or-unchanged only, for the same reason. The gate log is stated as entries for descendants only, not which descendants or in what order.
- Views.View.Propagate: slot stated as null-or-unchanged only, for the same reason. The gate log is stated as entries for descendants only, not which descendants or in what order.
- Views.View.PropagateTo: slot stated as null-or-unchanged only, for the same reason. The gate log is stated as entries for descendants only, not which descendants or in what order.
- Views.View.Routed: slot stated as null-or-unchanged only, for the same reason. The gate log is stated as entries for descendants only, not which descendants or in what order.
- Views.View.RouteDown: slot stated as null-or-unchanged only, for the same reason. The gate log is stated as entries for descendants only, not which descendants or in what order.
- Views.View.RoutedSelf: slot stated as null-or-unchanged only, for the same reason.
- Views.View.RouteChildren: slot stated as null-or-unchanged only, for the same reason. The gate log is stated as entries for descendants only, not which descendants or in what order.
- Views.View.RouteTo: slot stated as null-or-unchanged only, for the same reason. The gate log is stated as entries for descendants only, not which descendants or in what order.
- JavaScript truthiness is modelled only for the optional strings `route`, `url` and `_html`: absent and `""` are falsy.
