/** The HasLoaded / HideOnLoad attached properties of WebViewEx: a web view
    marked HideOnLoad is collapsed until its first navigation completes, and
    HasLoaded records that completion.

    `LoadState` is the abstract per-view state and the functions below give
    each transition on values; class `WebView` holds the same state in fields
    and its methods are proved to perform exactly those transitions.
    `handlers` counts how many times Webview_NavigationCompleted is
    subscribed to the view's NavigationCompleted event. */
module WebViewLoad {

  datatype Visibility = Visible | Collapsed

  datatype LoadState = LoadState(hasLoaded: bool, hideOnLoad: bool, visibility: Visibility, handlers: nat)

  /** A fresh view: both properties at their registered default false, shown, no handler. */
  const Initial := LoadState(hasLoaded := false, hideOnLoad := false, visibility := Visible, handlers := 0)

  /** What every reachable state satisfies: never more than one subscription,
      and a collapsed view is not yet loaded and waits for the handler. */
  predicate Consistent(s: LoadState)
  {
    && s.handlers <= 1
    && (s.visibility == Collapsed ==> !s.hasLoaded && s.handlers == 1)
  }

  /** `event -= handler`: removes one subscription, a no-op when there is none. */
  function Unsubscribe(handlers: nat): (r: nat)
    ensures handlers > 0 ==> r + 1 == handlers
    ensures handlers == 0 ==> r == 0
  {
    if handlers > 0 then handlers - 1 else 0
  }

  /** The HideOnLoad property-changed callback. */
  function OnHideOnLoadChanged(s: LoadState, newValue: bool): (t: LoadState)
    ensures s.handlers <= 1 ==> t.handlers == 1
    ensures t.hasLoaded == s.hasLoaded && t.hideOnLoad == s.hideOnLoad
    ensures t.visibility == Collapsed <==> (newValue && !s.hasLoaded) || s.visibility == Collapsed
  {
    var removed := s.(handlers := Unsubscribe(s.handlers));
    var hidden := if newValue && !s.hasLoaded then removed.(visibility := Collapsed) else removed;
    hidden.(handlers := hidden.handlers + 1)
  }

  /** Webview_NavigationCompleted. */
  function OnNavigationCompleted(s: LoadState): (t: LoadState)
    ensures t.hasLoaded && t.visibility == Visible
    ensures s.handlers <= 1 ==> t.handlers == 0
    ensures t.hideOnLoad == s.hideOnLoad
  {
    LoadState(hasLoaded := true, hideOnLoad := s.hideOnLoad, visibility := Visible,
              handlers := Unsubscribe(s.handlers))
  }

  /** SetHideOnLoad: the property system runs the callback only when the value changes. */
  function SetHideOnLoad(s: LoadState, value: bool): (t: LoadState)
    ensures t.hideOnLoad == value && t.hasLoaded == s.hasLoaded
    ensures value != s.hideOnLoad && s.handlers <= 1 ==> t.handlers == 1
    ensures value && !s.hasLoaded && value != s.hideOnLoad ==> t.visibility == Collapsed
    ensures !value ==> t.visibility == s.visibility
    ensures value == s.hideOnLoad ==> t == s
    ensures t.visibility == Collapsed <==>
              s.visibility == Collapsed || (value && value != s.hideOnLoad && !s.hasLoaded)
  {
    if value == s.hideOnLoad then s else OnHideOnLoadChanged(s.(hideOnLoad := value), value)
  }

  /** The view raises NavigationCompleted: the handler runs if it is subscribed. */
  function CompleteNavigation(s: LoadState): (t: LoadState)
    ensures s.handlers > 0 ==> t.hasLoaded && t.visibility == Visible
    ensures s.handlers == 0 ==> t == s
  {
    if s.handlers > 0 then OnNavigationCompleted(s) else s
  }

  datatype Event = HideOnLoadSet(value: bool) | NavigationCompleted

  function Step(s: LoadState, e: Event): LoadState
  {
    match e
    case HideOnLoadSet(v) => SetHideOnLoad(s, v)
    case NavigationCompleted => CompleteNavigation(s)
  }

  /** The state after a sequence of events. */
  function Run(s: LoadState, events: seq<Event>): LoadState
    decreases |events|
  {
    if events == [] then s else Run(Step(s, events[0]), events[1..])
  }

  lemma StepKeepsConsistent(s: LoadState, e: Event)
    requires Consistent(s)
    ensures Consistent(Step(s, e))
  {
  }

  /** Every state reachable from a consistent one is consistent. */
  lemma {:induction false} RunKeepsConsistent(s: LoadState, events: seq<Event>)
    requires Consistent(s)
    ensures Consistent(Run(s, events))
    decreases |events|
  {
    if events != [] {
      StepKeepsConsistent(s, events[0]);
      RunKeepsConsistent(Step(s, events[0]), events[1..]);
    }
  }

  /** HasLoaded only ever goes from false to true. */
  lemma {:induction false} HasLoadedIsSticky(s: LoadState, events: seq<Event>)
    requires s.hasLoaded
    ensures Run(s, events).hasLoaded
    decreases |events|
  {
    if events != [] {
      HasLoadedIsSticky(Step(s, events[0]), events[1..]);
    }
  }

  /** Only a completed navigation with the handler subscribed sets HasLoaded. */
  lemma OnlyTheHandlerLoads(s: LoadState, e: Event)
    requires !s.hasLoaded && Step(s, e).hasLoaded
    ensures e == NavigationCompleted && s.handlers > 0
  {
  }

  /** HasLoaded is tracked only once HideOnLoad was set: a view that only ever
      navigates keeps HasLoaded false and is never touched. */
  lemma {:induction false} NavigationAloneNeverLoads(events: seq<Event>)
    requires forall i :: 0 <= i < |events| ==> events[i] == NavigationCompleted
    ensures Run(Initial, events) == Initial
    decreases |events|
  {
    if events != [] {
      NavigationAloneNeverLoads(events[1..]);
    }
  }

  /** The view is shown only when loaded. */
  predicate ShownOnlyWhenLoaded(s: LoadState)
  {
    s.visibility == Visible ==> s.hasLoaded
  }

  lemma {:induction false} RunKeepsShownOnlyWhenLoaded(s: LoadState, events: seq<Event>)
    requires Consistent(s) && ShownOnlyWhenLoaded(s)
    ensures ShownOnlyWhenLoaded(Run(s, events))
    decreases |events|
  {
    if events != [] {
      StepKeepsConsistent(s, events[0]);
      RunKeepsShownOnlyWhenLoaded(Step(s, events[0]), events[1..]);
    }
  }

  /** "Set HideOnLoad to true to only display the WebView when it has finished
      loading its initial page": after HideOnLoad is set on a fresh view, in
      every later state the view is shown only if loaded, and the next
      completed navigation shows it and marks it loaded. */
  lemma HideOnLoadHidesUntilLoaded(events: seq<Event>)
    ensures var s := Run(Initial, [HideOnLoadSet(true)] + events);
            ShownOnlyWhenLoaded(s) && Consistent(s)
    ensures var t := Run(Initial, [HideOnLoadSet(true)] + events + [NavigationCompleted]);
            t.visibility == Visible && t.hasLoaded
  {
    var first := SetHideOnLoad(Initial, true);
    assert Run(Initial, [HideOnLoadSet(true)] + events) == Run(first, events) by {
      assert ([HideOnLoadSet(true)] + events)[1..] == events;
    }
    RunKeepsConsistent(first, events);
    RunKeepsShownOnlyWhenLoaded(first, events);
    RunAppend(first, events, [NavigationCompleted]);
    assert Run(Initial, [HideOnLoadSet(true)] + events + [NavigationCompleted])
           == Run(first, events + [NavigationCompleted]) by {
      assert ([HideOnLoadSet(true)] + events + [NavigationCompleted])[1..] == events + [NavigationCompleted];
    }
    var s := Run(first, events);
    assert Run(s, [NavigationCompleted]) == Step(s, NavigationCompleted);
  }

  lemma {:induction false} RunAppend(s: LoadState, a: seq<Event>, b: seq<Event>)
    ensures Run(s, a + b) == Run(Run(s, a), b)
    decreases |a|
  {
    if a != [] {
      assert (a + b)[1..] == a[1..] + b;
      RunAppend(Step(s, a[0]), a[1..], b);
    } else {
      assert a + b == b;
    }
  }

  /** A web view carrying the two attached properties and the subscription. */
  class WebView {
    var hasLoaded: bool
    var hideOnLoad: bool
    var visibility: Visibility
    var handlers: nat

    function State(): LoadState
      reads this
    {
      LoadState(hasLoaded, hideOnLoad, visibility, handlers)
    }

    ghost predicate Valid()
      reads this
    {
      Consistent(State())
    }

    constructor ()
      ensures State() == Initial && Valid()
    {
      hasLoaded, hideOnLoad, visibility, handlers := false, false, Visible, 0;
    }

    /** GetHasLoaded. */
    function GetHasLoaded(): (loaded: bool)
      reads this
      ensures loaded == State().hasLoaded
    {
      hasLoaded
    }

    /** The HideOnLoad property-changed callback: unsubscribe, collapse a
        view that is not loaded when the new value is true, subscribe. */
    method HideOnLoadChanged(newValue: bool)
      modifies this
      ensures State() == OnHideOnLoadChanged(old(State()), newValue)
    {
      if handlers > 0 {
        handlers := handlers - 1;
      }
      if newValue && !GetHasLoaded() {
        visibility := Collapsed;
      }
      handlers := handlers + 1;
    }

    /** SetHideOnLoad, with the property system's change notification. */
    method SetHideOnLoad(value: bool)
      requires Valid()
      modifies this
      ensures Valid()
      ensures State() == Step(old(State()), HideOnLoadSet(value))
      ensures old(hasLoaded) == hasLoaded && handlers >= old(handlers)
    {
      if value != hideOnLoad {
        hideOnLoad := value;
        HideOnLoadChanged(value);
      }
    }

    /** Webview_NavigationCompleted: show the view, unsubscribe, mark it loaded. */
    method NavigationCompletedHandler()
      modifies this
      ensures State() == OnNavigationCompleted(old(State()))
    {
      visibility := Visible;
      if handlers > 0 {
        handlers := handlers - 1;
      }
      hasLoaded := true;
    }

    /** The view finishes a navigation and raises NavigationCompleted. */
    method RaiseNavigationCompleted()
      requires Valid()
      modifies this
      ensures Valid()
      ensures State() == Step(old(State()), NavigationCompleted)
      ensures old(hasLoaded) ==> hasLoaded
      ensures visibility == Visible
    {
      if handlers > 0 {
        NavigationCompletedHandler();
      }
    }
  }
}
