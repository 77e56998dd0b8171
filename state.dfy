/**
 * The state of one view node as a value, and the effect of each of the
 * node-local operations of src/mvc/View.js on it: `_callInit`, `_load`,
 * `_tryInitialize`, `_loaded`, `_error` and the state a constructor leaves.
 *
 * The user callbacks `init` and `routed`, the request sent by `_load` and the
 * `isActive.update()` notification are not executed; each is counted in
 * `Calls`, so that "at most once" and "exactly one request" can be stated.
 */
module Lifecycle {

  datatype Option<+T> = None | Some(value: T)

  /** JavaScript truthiness of an optional string: absent and "" are falsy. */
  predicate Truthy(o: Option<string>) {
    o.Some? && o.value != ""
  }

  /** The declarative `options` object of a view. */
  datatype Options = Options(route: Option<string>, url: Option<string>, preload: bool)

  /** How often each external effect has happened on one view. */
  datatype Calls = Calls(
    init: nat,      // runs of the user `init` callback
    routed: nat,    // runs of the user `routed` callback
    fetched: nat,   // requests issued by `_load`
    settled: nat,   // responses delivered (`_loaded` or `_error`)
    updates: nat)   // `isActive.update()` notifications

  const NoCalls := Calls(0, 0, 0, 0, 0)

  /** The per-instance state of a view: `isActive`, `loading`, `_initialized`,
      `_initCalled`, `_html`, plus the counters. */
  datatype ViewState = ViewState(
    opts: Options,
    isActive: bool,
    loading: bool,
    initialized: bool,
    initCalled: bool,
    html: Option<string>,
    calls: Calls)

  /** The view's `url` option is set (and not empty). */
  predicate UrlBound(s: ViewState) {
    Truthy(s.opts.url)
  }

  /** The view's `route` option is set (and not empty). */
  predicate RouteBound(s: ViewState) {
    Truthy(s.opts.route)
  }

  /** A url-bound view still waiting for content. */
  predicate AwaitsContent(s: ViewState) {
    UrlBound(s) && !Truthy(s.html)
  }

  /**
   * What every reachable state satisfies:
   * - `init` has run exactly when `_initCalled` is set, so at most once;
   * - an initialised view has run `init`, and if it is url-bound it holds content;
   * - a url-bound view holding content is initialised;
   * - `loading` holds exactly while one request is outstanding, only for a
   *   url-bound view that is not yet initialised.
   */
  ghost predicate Inv(s: ViewState) {
    && s.calls.init == (if s.initCalled then 1 else 0)
    && (s.initialized ==> s.initCalled)
    && (s.initialized ==> !AwaitsContent(s))
    && (UrlBound(s) && Truthy(s.html) ==> s.initialized)
    && s.calls.fetched == s.calls.settled + (if s.loading then 1 else 0)
    && (s.loading ==> UrlBound(s) && !s.initialized)
  }

  /** `_callInit`: runs `init` unless it already ran, then commits `_initCalled`. */
  function CallInit(s: ViewState): (r: ViewState)
    ensures r.initCalled
    ensures s.initCalled ==> r == s
    ensures r.calls.init == if s.initCalled then s.calls.init else s.calls.init + 1
    ensures r.opts == s.opts && r.isActive == s.isActive && r.loading == s.loading
    ensures r.initialized == s.initialized && r.html == s.html
    ensures r.calls.fetched == s.calls.fetched && r.calls.settled == s.calls.settled
    ensures r.calls.routed == s.calls.routed && r.calls.updates == s.calls.updates
  {
    if s.initCalled then s
    else s.(initCalled := true, calls := s.calls.(init := s.calls.init + 1))
  }

  /** `_load`: issues a request only for a url-bound view that is not already loading. */
  function Load(s: ViewState): (r: ViewState)
    ensures !UrlBound(s) || s.loading ==> r == s
    ensures UrlBound(s) && !s.loading ==> r.loading && r.calls.fetched == s.calls.fetched + 1
    ensures r.calls.fetched <= s.calls.fetched + 1
    ensures UrlBound(s) ==> r.loading
    ensures r.opts == s.opts && r.isActive == s.isActive && r.html == s.html
    ensures r.initialized == s.initialized && r.initCalled == s.initCalled
    ensures r.calls.init == s.calls.init && r.calls.settled == s.calls.settled
    ensures Inv(s) && !s.initialized ==> Inv(r)
  {
    if UrlBound(s) && !s.loading then
      s.(loading := true, calls := s.calls.(fetched := s.calls.fetched + 1))
    else s
  }

  /** The state a constructor leaves: active unless route-bound, not loading,
      then `_load` if preloaded or active. */
  function Fresh(opts: Options): (s: ViewState)
    ensures s.opts == opts
    ensures s.isActive == !Truthy(opts.route)
    ensures !s.initialized && !s.initCalled && s.html == None
    ensures s.loading <==> Truthy(opts.url) && (opts.preload || !Truthy(opts.route))
    ensures s.calls == NoCalls.(fetched := if s.loading then 1 else 0)
    ensures Inv(s)
  {
    var s0 := ViewState(opts, !Truthy(opts.route), false, false, false, None, NoCalls);
    if opts.preload || s0.isActive then Load(s0) else s0
  }

  /** `_tryInitialize(v)` takes its initialising branch: `_initialized` is set. */
  predicate InitBranch(s: ViewState, v: bool) {
    !s.initialized && v && !AwaitsContent(s)
  }

  /** `_tryInitialize(v)`. */
  function TryInit(s: ViewState, v: bool): (r: ViewState)
    ensures s.initialized || !v ==> r == s
    ensures r.opts == s.opts && r.isActive == s.isActive && r.html == s.html
    ensures r.initialized <==> s.initialized || InitBranch(s, v)
    ensures r.initCalled <==> s.initCalled || (v && !s.initialized)
    ensures r.calls.init == s.calls.init + (if !s.initCalled && !s.initialized && v then 1 else 0)
    ensures r.calls.routed == s.calls.routed && r.calls.settled == s.calls.settled
    ensures !s.initialized && v && AwaitsContent(s) ==> r.loading
    ensures InitBranch(s, v) ==>
              r.loading == s.loading && r.calls.fetched == s.calls.fetched &&
              r.calls.updates == s.calls.updates + (if s.isActive then 1 else 0)
    ensures !InitBranch(s, v) ==> r.calls.updates == s.calls.updates
    ensures Inv(s) ==> Inv(r)
  {
    if !s.initialized && v then
      if AwaitsContent(s) then
        Load(CallInit(s))
      else
        var r := CallInit(s.(initialized := true));
        if r.isActive then r.(calls := r.calls.(updates := r.calls.updates + 1)) else r
    else s
  }

  /** `_loaded(html)`: store the content, try to initialise, stop loading.
      It keeps the invariant when it answers the view's outstanding request. */
  function Loaded(s: ViewState, h: string): (r: ViewState)
    ensures !r.loading && r.html == Some(h)
    ensures r.calls.settled == s.calls.settled + 1
    ensures s.loading ==> r.calls.fetched == s.calls.fetched
    ensures r.opts == s.opts && r.isActive == s.isActive
    ensures r.calls.init <= s.calls.init + 1
    ensures s.initCalled ==> r.calls.init == s.calls.init
    ensures Inv(s) && s.loading ==> Inv(r) && r.initCalled && (r.initialized <==> h != "")
  {
    var r := TryInit(s.(html := Some(h)), true);
    r.(loading := false, calls := r.calls.(settled := r.calls.settled + 1))
  }

  /** `_error()`: stop loading; nothing else changes. It keeps the invariant
      when it answers the view's outstanding request. */
  function Failed(s: ViewState): (r: ViewState)
    ensures !r.loading && r.calls.settled == s.calls.settled + 1
    ensures r.opts == s.opts && r.isActive == s.isActive && r.html == s.html
    ensures r.initialized == s.initialized && r.initCalled == s.initCalled
    ensures r.calls.init == s.calls.init && r.calls.fetched == s.calls.fetched
    ensures r.calls.routed == s.calls.routed && r.calls.updates == s.calls.updates
    ensures Inv(s) && s.loading ==> Inv(r)
  {
    s.(loading := false, calls := s.calls.(settled := s.calls.settled + 1))
  }

  /** `n` successive calls of `_tryInitialize(true)`. */
  function TryInitTimes(s: ViewState, n: nat): (r: ViewState) {
    if n == 0 then s else TryInit(TryInitTimes(s, n - 1), true)
  }

  /** Entering the gate with `true` again changes nothing. */
  lemma TryInitIdempotent(s: ViewState)
    ensures TryInit(TryInit(s, true), true) == TryInit(s, true)
  {
  }

  /** However often the gate is entered with `true`, the effect is that of one
      entry: on a view that has not run `init`, exactly one `init` call. */
  lemma {:induction false} TryInitRepeated(s: ViewState, n: nat)
    requires n >= 1
    ensures TryInitTimes(s, n) == TryInit(s, true)
    ensures Inv(s) && !s.initCalled ==> TryInitTimes(s, n).calls.init == 1
  {
    if n > 1 {
      TryInitRepeated(s, n - 1);
      TryInitIdempotent(s);
    }
  }
}
