/**
 * The toolbar view: its search bar state machine, the fields its property
 * setters and UI callbacks update, and the events it sends to the event
 * dispatcher. The search view is represented by the three things the
 * toolbar sets and reads on it: its query, its hint and whether it is
 * iconified.
 */
module ReactToolbar {
  import opened Wrappers
  import opened ToolbarConfig
  import opened SearchTextEvents

  datatype SearchState = Hidden | VisibleFocused | VisibleNotFocused

  /** The three icon slots whose sources are set from properties. */
  datatype IconSlot = LogoSlot | NavIconSlot | OverflowIconSlot

  /** An event handed to the event dispatcher. */
  datatype Event =
    | ToolbarClick(viewTag: int, timestampMs: int, position: int)
    | SearchPressed(viewTag: int, timestampMs: int)
    | SearchText(event: SearchTextEvent)
    | SearchCancelled(viewTag: int, timestampMs: int)

  /** The search view and search item fields of the toolbar, as setActions sees them. */
  datatype SearchFields = SearchFields(
    hasSearchView: bool, searchItemOrder: Option<int>, query: string, queryHint: Option<string>, iconified: bool)

  /** The search view's query after setQuery(text): a null text leaves it empty. */
  function QueryText(text: Option<string>): string {
    text.GetOr("")
  }

  class Toolbar {
    /** The view id, the tag of every event. */
    const id: int

    var searchState: SearchState
    /** Whether a search view has been created (mSearch != null). */
    var hasSearchView: bool
    /** The order of the search menu item (mSearchMenuItem), set together with the search view. */
    var searchItemOrder: Option<int>
    /** The query saved while the search bar is hidden, and the placeholder. */
    var searchText: Option<string>
    var searchPlaceholder: Option<string>

    var navIconDrawable: Option<Drawable>
    var navIconOverride: Option<Drawable>
    var navTintColor: int
    /** What the navigation icon currently shows. */
    var navigationIcon: Option<TintedIcon>
    /**
     * The logo and overflow icon last set from a source. None means two
     * things: at construction, that none was ever set, so the platform still
     * shows its default; after a null source or drawable, that the icon was
     * set to null.
     */
    var logo: Option<Drawable>
    var overflowIcon: Option<Drawable>
    var menu: seq<MenuItem>

    /** The search view's query text, query hint and iconified flag. */
    var query: string
    var queryHint: Option<string>
    var iconified: bool

    /** Every event dispatched so far, oldest first. */
    var dispatched: seq<Event>

    ghost predicate Valid()
      reads this
    {
      && (searchState != Hidden ==> hasSearchView)
      && (hasSearchView <==> searchItemOrder.Some?)
      && (forall k :: 0 <= k < |menu| ==> menu[k].order == k)
    }

    constructor (id: int, defaultTintColor: int)
      ensures Valid()
      ensures this.id == id && navTintColor == defaultTintColor
      ensures searchState == Hidden && !hasSearchView && searchItemOrder == None
      ensures searchText == None && searchPlaceholder == None
      ensures navIconDrawable == None && navIconOverride == None && navigationIcon == None
      ensures logo == None && overflowIcon == None && menu == []
      ensures dispatched == []
    {
      this.id := id;
      searchState := Hidden;
      hasSearchView := false;
      searchItemOrder := None;
      searchText := None;
      searchPlaceholder := None;
      navIconDrawable := None;
      navIconOverride := None;
      navTintColor := defaultTintColor;
      navigationIcon := None;
      logo := None;
      overflowIcon := None;
      menu := [];
      query := "";
      queryHint := None;
      iconified := true;
      dispatched := [];
    }

    // -------------------------------------------------------------------------
    // Icons and colours

    /** Shows the override, else the loaded drawable, tinted with the current colour; with neither it sets nothing. */
    method UpdateNavIcon()
      modifies this`navigationIcon
      ensures navigationIcon == NavIconAfterUpdate(navIconOverride, navIconDrawable, navTintColor, old(navigationIcon))
    {
      var icon := if navIconOverride.Some? then navIconOverride else navIconDrawable;
      if icon.Some? {
        navigationIcon := Some(TintedIcon(icon.value, navTintColor));
      }
    }

    /** Re-tints every menu item that has an icon with the current colour. */
    method UpdateMenuItemColor()
      requires Valid()
      modifies this`menu
      ensures Valid()
      ensures menu == Retinted(old(menu), navTintColor)
    {
      ghost var original := menu;
      var i := 0;
      while i < |menu|
        invariant 0 <= i <= |menu| == |original|
        invariant forall k :: 0 <= k < i ==> menu[k] == Retint(original[k], navTintColor)
        invariant forall k :: i <= k < |menu| ==> menu[k] == original[k]
      {
        if menu[i].icon.Some? {
          menu := menu[i := Retint(menu[i], navTintColor)];
        }
        i := i + 1;
      }
      assert menu == Retinted(original, navTintColor);
    }

    method SetNavTintColor(color: int)
      requires Valid()
      modifies this`navTintColor, this`navigationIcon, this`menu
      ensures Valid()
      ensures navTintColor == color
      ensures navigationIcon == NavIconAfterUpdate(navIconOverride, navIconDrawable, color, old(navigationIcon))
      ensures menu == Retinted(old(menu), color)
    {
      navTintColor := color;
      UpdateNavIcon();
      UpdateMenuItemColor();
    }

    /** The navigation icon listener's setDrawable: records the loaded drawable and refreshes the icon. */
    method NavIconDrawableSet(d: Option<Drawable>)
      modifies this`navIconDrawable, this`navigationIcon
      ensures navIconDrawable == d
      ensures navigationIcon == NavIconAfterUpdate(navIconOverride, d, navTintColor, old(navigationIcon))
    {
      navIconDrawable := d;
      UpdateNavIcon();
    }

    /**
     * setLogoSource, setNavIconSource and setOverflowIcon: a null source or
     * URI, or a resource name, sets the slot's drawable at once; a remote URI
     * starts a load and changes nothing yet.
     */
    method SetIconSource(slot: IconSlot, source: Option<IconSource>, resources: map<string, Drawable>)
      modifies this`logo, this`overflowIcon, this`navIconDrawable, this`navigationIcon
      ensures ClassifyIconSource(source, resources).LoadRemote? ==>
                logo == old(logo) && overflowIcon == old(overflowIcon) &&
                navIconDrawable == old(navIconDrawable) && navigationIcon == old(navigationIcon)
      ensures ClassifyIconSource(source, resources).SetDrawable? ==>
                var d := ClassifyIconSource(source, resources).drawable;
                && logo == (if slot == LogoSlot then d else old(logo))
                && overflowIcon == (if slot == OverflowIconSlot then d else old(overflowIcon))
                && navIconDrawable == (if slot == NavIconSlot then d else old(navIconDrawable))
                && navigationIcon == (if slot == NavIconSlot
                                      then NavIconAfterUpdate(navIconOverride, d, navTintColor, old(navigationIcon))
                                      else old(navigationIcon))
    {
      var load := ClassifyIconSource(source, resources);
      if load.SetDrawable? {
        match slot {
          case LogoSlot => logo := load.drawable;
          case NavIconSlot => NavIconDrawableSet(load.drawable);
          case OverflowIconSlot => overflowIcon := load.drawable;
        }
      }
    }

    // -------------------------------------------------------------------------
    // Actions

    /** The search view fields that setActions may replace. */
    ghost function Fields(): SearchFields
      reads this
    {
      SearchFields(hasSearchView, searchItemOrder, query, queryHint, iconified)
    }

    /**
     * After setActions has seen the actions whose last search action is
     * `found`: a fresh search view for that action, or the fields as `before`.
     */
    ghost predicate SearchFieldsAfter(found: Option<nat>, before: SearchFields)
      reads this
    {
      if found.Some? then Fields() == SearchFields(true, Some(found.value as int), "", None, true)
      else Fields() == before && (before.hasSearchView <==> before.searchItemOrder.Some?)
    }

    /**
     * One step of setActions: adds the action's item at `order`; a search
     * action gets a fresh search view and becomes the search item.
     */
    method AddAction(a: Action, order: nat, resources: map<string, Drawable>)
      modifies this`menu, this`hasSearchView, this`searchItemOrder, this`query, this`queryHint, this`iconified
      ensures menu == old(menu) + [ItemFor(a, order, navTintColor, resources)]
      ensures IsSearch(a) ==> Fields() == SearchFields(true, Some(order as int), "", None, true)
      ensures !IsSearch(a) ==> Fields() == old(Fields())
    {
      menu := menu + [ItemFor(a, order, navTintColor, resources)];
      if IsSearch(a) {
        hasSearchView := true;
        searchItemOrder := Some(order);
        query := "";
        queryHint := None;
        iconified := true;
      }
    }

    /**
     * Rebuilds the menu from the actions array (null means none). Each search
     * action creates a fresh search view and becomes the search item, so the
     * last one wins; without any, the previous search view and item are kept.
     */
    method SetActions(actions: Option<seq<Action>>, resources: map<string, Drawable>)
      requires Valid()
      modifies this`menu, this`hasSearchView, this`searchItemOrder, this`query, this`queryHint, this`iconified
      ensures Valid()
      ensures menu == MenuFor(actions.GetOr([]), navTintColor, resources)
      ensures LastSearchIndex(actions.GetOr([])).Some? ==>
                && hasSearchView
                && searchItemOrder == Some(LastSearchIndex(actions.GetOr([])).value as int)
                && query == "" && queryHint == None && iconified
      ensures LastSearchIndex(actions.GetOr([])).None? ==>
                && hasSearchView == old(hasSearchView) && searchItemOrder == old(searchItemOrder)
                && query == old(query) && queryHint == old(queryHint) && iconified == old(iconified)
    {
      var acts := actions.GetOr([]);
      ghost var before := SearchFields(hasSearchView, searchItemOrder, query, queryHint, iconified);
      menu := [];
      var i := 0;
      while i < |acts|
        invariant 0 <= i <= |acts|
        invariant menu == MenuFor(acts[..i], navTintColor, resources)
        invariant SearchFieldsAfter(LastSearchIndex(acts[..i]), before)
      {
        MenuForExtend(acts, i, navTintColor, resources);
        LastSearchIndexExtend(acts, i);
        AddAction(acts[i], i, resources);
        i := i + 1;
      }
      assert acts[..i] == acts;
      RetintedTintedMenu(menu, navTintColor);
      UpdateMenuItemColor();
    }

    // -------------------------------------------------------------------------
    // Search state machine

    /**
     * Moves the search bar to `state`. Every path that touches the search
     * view needs one, so leaving Hidden requires a search view.
     */
    method SetSearchState(state: SearchState)
      requires Valid()
      requires state != Hidden ==> hasSearchView
      modifies this`searchState, this`navIconOverride, this`navigationIcon, this`searchText,
               this`query, this`queryHint, this`iconified
      ensures Valid()
      ensures searchState == state
      // entering Hidden from a visible state saves the query and drops the back arrow
      ensures state == Hidden && old(searchState) != Hidden ==>
                && navIconOverride == None
                && navigationIcon == NavIconAfterUpdate(None, navIconDrawable, navTintColor, old(navigationIcon))
                && searchText == Some(old(query))
                && query == old(query) && queryHint == old(queryHint) && iconified == old(iconified)
      // entering VisibleFocused installs the back arrow and restores query and hint
      ensures state == VisibleFocused ==>
                && navIconOverride == Some(BackArrow)
                && navigationIcon == Some(TintedIcon(BackArrow, navTintColor))
                && searchText == old(searchText)
                && query == QueryText(searchText) && queryHint == searchPlaceholder
                && iconified == old(iconified)
      // VisibleNotFocused from Hidden opens the view and restores query and hint
      ensures state == VisibleNotFocused && old(searchState) == Hidden ==>
                && navIconOverride == old(navIconOverride) && navigationIcon == old(navigationIcon)
                && searchText == old(searchText)
                && query == QueryText(searchText) && queryHint == searchPlaceholder
                && !iconified
      // Hidden from Hidden, and VisibleNotFocused from a visible state, change nothing else
      ensures (state == Hidden && old(searchState) == Hidden) ||
              (state == VisibleNotFocused && old(searchState) != Hidden) ==>
                && navIconOverride == old(navIconOverride) && navigationIcon == old(navigationIcon)
                && searchText == old(searchText)
                && query == old(query) && queryHint == old(queryHint) && iconified == old(iconified)
    {
      match state {
        case Hidden =>
          if searchState != Hidden {
            navIconOverride := None;
            UpdateNavIcon();
            searchText := Some(query);
          }
        case VisibleFocused =>
          navIconOverride := Some(BackArrow);
          UpdateNavIcon();
          query := QueryText(searchText);
          queryHint := searchPlaceholder;
        case VisibleNotFocused =>
          if searchState == Hidden {
            iconified := false;
            query := QueryText(searchText);
            queryHint := searchPlaceholder;
          }
      }
      searchState := state;
    }

    /** Opens the search bar, unfocused, if it is hidden; otherwise does nothing. */
    method ShowSearch()
      requires Valid()
      requires searchState == Hidden ==> hasSearchView
      modifies this`searchState, this`navIconOverride, this`navigationIcon, this`searchText,
               this`query, this`queryHint, this`iconified
      ensures Valid()
      ensures old(searchState) == Hidden ==>
                && searchState == VisibleNotFocused
                && navIconOverride == old(navIconOverride) && navigationIcon == old(navigationIcon)
                && searchText == old(searchText)
                && query == QueryText(searchText) && queryHint == searchPlaceholder && !iconified
      ensures old(searchState) != Hidden ==>
                && searchState == old(searchState)
                && navIconOverride == old(navIconOverride) && navigationIcon == old(navigationIcon)
                && searchText == old(searchText)
                && query == old(query) && queryHint == old(queryHint) && iconified == old(iconified)
    {
      if searchState == Hidden {
        SetSearchState(VisibleNotFocused);
      }
    }

    method HideSearch()
      requires Valid()
      modifies this`searchState, this`navIconOverride, this`navigationIcon, this`searchText,
               this`query, this`queryHint, this`iconified
      ensures Valid()
      ensures searchState == Hidden
      ensures old(searchState) != Hidden ==>
                && navIconOverride == None
                && navigationIcon == NavIconAfterUpdate(None, navIconDrawable, navTintColor, old(navigationIcon))
                && searchText == Some(old(query))
      ensures old(searchState) == Hidden ==>
                navIconOverride == old(navIconOverride) && navigationIcon == old(navigationIcon) &&
                searchText == old(searchText)
      ensures query == old(query) && queryHint == old(queryHint) && iconified == old(iconified)
    {
      SetSearchState(Hidden);
    }

    /** Stores the placeholder and shows it as the hint, only once a search view exists. */
    method SetSearchPlaceholder(placeholder: Option<string>)
      modifies this`queryHint, this`searchPlaceholder
      ensures hasSearchView ==> queryHint == placeholder && searchPlaceholder == placeholder
      ensures !hasSearchView ==> queryHint == old(queryHint) && searchPlaceholder == old(searchPlaceholder)
    {
      if hasSearchView {
        queryHint := placeholder;
        searchPlaceholder := placeholder;
      }
    }

    /** Stores the text and puts it into the query, only once a search view exists. */
    method SetSearchText(text: Option<string>)
      modifies this`query, this`searchText
      ensures hasSearchView ==> query == QueryText(text) && searchText == text
      ensures !hasSearchView ==> query == old(query) && searchText == old(searchText)
    {
      if hasSearchView {
        query := QueryText(text);
        searchText := text;
      }
    }

    // -------------------------------------------------------------------------
    // UI callbacks

    /** Search was cancelled: report it and hide the search bar. */
    method OnClose(timestampMs: int) returns (handled: bool)
      requires Valid()
      modifies this`dispatched, this`searchState, this`navIconOverride, this`navigationIcon,
               this`searchText, this`query, this`queryHint, this`iconified
      ensures Valid()
      ensures !handled
      ensures dispatched == old(dispatched) + [SearchCancelled(id, timestampMs)]
      ensures searchState == Hidden
      ensures old(searchState) != Hidden ==>
                && navIconOverride == None
                && navigationIcon == NavIconAfterUpdate(None, navIconDrawable, navTintColor, old(navigationIcon))
                && searchText == Some(old(query))
      ensures old(searchState) == Hidden ==>
                navIconOverride == old(navIconOverride) && navigationIcon == old(navigationIcon) &&
                searchText == old(searchText)
      ensures query == old(query) && queryHint == old(queryHint) && iconified == old(iconified)
    {
      dispatched := dispatched + [SearchCancelled(id, timestampMs)];
      SetSearchState(Hidden);
      handled := false;
    }

    /**
     * The navigation button: while the search bar is hidden it is a click at
     * position -1; otherwise it cancels the search and empties the query.
     */
    method OnNavClicked(timestampMs: int)
      requires Valid()
      modifies this`dispatched, this`searchState, this`navIconOverride, this`navigationIcon,
               this`searchText, this`query, this`queryHint, this`iconified
      ensures Valid()
      ensures searchState == Hidden
      ensures old(searchState) == Hidden ==>
                && dispatched == old(dispatched) + [ToolbarClick(id, timestampMs, -1)]
                && navIconOverride == old(navIconOverride) && navigationIcon == old(navigationIcon)
                && searchText == old(searchText)
                && query == old(query) && queryHint == old(queryHint) && iconified == old(iconified)
      ensures old(searchState) != Hidden ==>
                && dispatched == old(dispatched) + [SearchCancelled(id, timestampMs)]
                && navIconOverride == None
                && navigationIcon == NavIconAfterUpdate(None, navIconDrawable, navTintColor, old(navigationIcon))
                && searchText == Some(old(query))
                && query == "" && queryHint == old(queryHint) && iconified
    {
      if searchState == Hidden {
        dispatched := dispatched + [ToolbarClick(id, timestampMs, -1)];
      } else {
        var _ := OnClose(timestampMs);
        query := QueryText(None);
        iconified := true;
      }
    }

    /** The query was submitted: report it and leave the search bar open but unfocused. */
    method OnQueryTextSubmit(submitted: string, timestampMs: int) returns (handled: bool)
      requires Valid()
      requires hasSearchView
      modifies this`dispatched, this`searchState, this`navIconOverride, this`navigationIcon,
               this`searchText, this`query, this`queryHint, this`iconified
      ensures Valid()
      ensures !handled
      ensures dispatched == old(dispatched) + [SearchPressed(id, timestampMs)]
      ensures searchState == VisibleNotFocused
      ensures navIconOverride == old(navIconOverride) && navigationIcon == old(navigationIcon)
      ensures searchText == old(searchText)
      ensures old(searchState) == Hidden ==>
                query == QueryText(searchText) && queryHint == searchPlaceholder && !iconified
      ensures old(searchState) != Hidden ==>
                query == old(query) && queryHint == old(queryHint) && iconified == old(iconified)
    {
      dispatched := dispatched + [SearchPressed(id, timestampMs)];
      SetSearchState(VisibleNotFocused);
      handled := false;
    }

    /** The query text changed: report the new text; nothing else changes. */
    method OnQueryTextChange(newText: string, timestampMs: int) returns (handled: bool)
      modifies this`dispatched
      ensures handled
      ensures dispatched == old(dispatched) + [SearchText(SearchTextEvents.Create(id, timestampMs, Some(newText)))]
    {
      dispatched := dispatched + [SearchText(SearchTextEvents.Create(id, timestampMs, Some(newText)))];
      handled := true;
    }

    /** The search item was clicked: report a click at its order and focus the search bar. */
    method OnClick(timestampMs: int)
      requires Valid()
      requires hasSearchView
      modifies this`dispatched, this`searchState, this`navIconOverride, this`navigationIcon,
               this`searchText, this`query, this`queryHint, this`iconified
      ensures Valid()
      ensures dispatched == old(dispatched) + [ToolbarClick(id, timestampMs, searchItemOrder.value)]
      ensures searchState == VisibleFocused
      ensures navIconOverride == Some(BackArrow)
      ensures navigationIcon == Some(TintedIcon(BackArrow, navTintColor))
      ensures searchText == old(searchText)
      ensures query == QueryText(searchText) && queryHint == searchPlaceholder
      ensures iconified == old(iconified)
    {
      dispatched := dispatched + [ToolbarClick(id, timestampMs, searchItemOrder.value)];
      SetSearchState(VisibleFocused);
    }
  }

  // ---------------------------------------------------------------------------
  // Sessions: what a sequence of callbacks on a fresh toolbar adds up to

  /** A toolbar whose only action is a search action. */
  function SearchAction(): Action {
    Action("Search", None, None, None, Some(true))
  }

  /**
   * Open the search from its item, type, submit, then press the navigation
   * button, then show the search again: four events in order, the typed
   * query is saved on hiding and put back on showing.
   */
  method SearchSession(viewId: int, typed: string, t1: int, t2: int, t3: int, t4: int)
    returns (events: seq<Event>, saved: Option<string>, restored: string, state: SearchState)
    ensures events == [ToolbarClick(viewId, t1, 0),
                       SearchText(SearchTextEvent(viewId, t2, Some(typed))),
                       SearchPressed(viewId, t3),
                       SearchCancelled(viewId, t4)]
    ensures saved == Some(typed)
    ensures restored == typed
    ensures state == VisibleNotFocused
  {
    var toolbar := new Toolbar(viewId, 0);
    toolbar.SetActions(Some([SearchAction()]), map[]);
    toolbar.OnClick(t1);
    // the user types into the search view, which reports the change
    toolbar.query := typed;
    var _ := toolbar.OnQueryTextChange(typed, t2);
    var _ := toolbar.OnQueryTextSubmit(typed, t3);
    toolbar.OnNavClicked(t4);
    saved := toolbar.searchText;
    toolbar.ShowSearch();
    events, restored, state := toolbar.dispatched, toolbar.query, toolbar.searchState;
  }

  /**
   * With no navigation icon loaded, the back arrow installed by focusing the
   * search stays on the navigation button after the search is hidden.
   */
  method BackArrowOutlivesSearch(viewId: int, tint: int, t1: int, t2: int)
    returns (shown: Option<TintedIcon>, state: SearchState, events: seq<Event>)
    ensures state == Hidden
    ensures shown == Some(TintedIcon(BackArrow, tint))
    ensures events == [ToolbarClick(viewId, t1, 0), SearchCancelled(viewId, t2)]
  {
    var toolbar := new Toolbar(viewId, tint);
    toolbar.SetActions(Some([SearchAction()]), map[]);
    toolbar.OnClick(t1);
    toolbar.HideSearch();
    var _ := toolbar.OnClose(t2);
    shown, state, events := toolbar.navigationIcon, toolbar.searchState, toolbar.dispatched;
  }

  /** A navigation click with the search bar hidden is a single click at position -1 and nothing else. */
  method NavClickWhileHidden(viewId: int, t: int) returns (events: seq<Event>, state: SearchState)
    ensures events == [ToolbarClick(viewId, t, -1)]
    ensures state == Hidden
  {
    var toolbar := new Toolbar(viewId, 0);
    toolbar.OnNavClicked(t);
    events, state := toolbar.dispatched, toolbar.searchState;
  }
}
