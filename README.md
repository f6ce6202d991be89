# ReactToolbar search bar and events, modelled in Dafny

This project models the Android toolbar view of React Native (`ReactToolbar`)
and its text-change event payload (`ToolbarSearchTextEvent`).

The core is the search bar. It has three states: `Hidden`, `VisibleFocused`
and `VisibleNotFocused`. The callbacks `showSearch`, `hideSearch`, `onClick`,
`onQueryTextSubmit`, `onQueryTextChange`, `onClose` and `onNavClicked` move
between these states. They also:

- save and restore the query;
- install and remove the back-arrow navigation icon;
- send click, search-pressed, search-text and cancelled events to the event dispatcher.

Beside the state machine, the project models the pure rules inside the
property setters:

- the flags and order of each action's menu item;
- which action becomes the search item;
- how an icon URI is classified;
- which drawable the navigation icon shows;
- how menu icons are re-tinted.

Files:

- `wrappers.dfy`: `Option`, standing for Java's nullable references.
- `search_text_event.dfy` (module `SearchTextEvents`): the text-change event as an immutable value, with its name, its coalescing flag and the payload it emits.
- `toolbar_config.dfy` (module `ToolbarConfig`): the pure rules.
- `react_toolbar.dfy` (module `ReactToolbar`): class `Toolbar`. Its fields are the ones the view updates: search state, saved query and placeholder, navigation icon drawable, override and tint, menu, and the search view's query, hint and iconified flag. It also keeps the list of events dispatched so far. Three session methods drive a fresh toolbar through a sequence of callbacks.

Abstractions:

- Every Java `String` or `Drawable` that may be null is an `Option`.
- `SearchView.setQuery(null)` leaves the query empty.
- The clock is a `timestampMs` parameter of each callback.
- Resource lookup by name is a `resources: map<string, Drawable>` parameter; an unknown name resolves to null.
- The back-arrow resource is the constant drawable `BackArrow`.
- The source crashes with a null dereference when it uses `mSearch` or `mSearchMenuItem` before a search action has created them. The model turns each such case into a `requires` clause.
- `Toolbar.Valid()` states three invariants: a visible search bar has a search view; the search view and the search item exist together; and each menu item's order equals its index.

## Model

| member | source | states |
|---|---|---|
| `SearchTextEvents.Create` | ReactAndroid/src/main/java/com/facebook/react/views/toolbar/events/ToolbarSearchTextEvent.java:25-28 | the text is kept unchanged; view id and timestamp become the base event's tag and timestamp |
| `SearchTextEvents.EventName` | ReactAndroid/src/main/java/com/facebook/react/views/toolbar/events/ToolbarSearchTextEvent.java:30-33 | every text event is named "topSearchText" |
| `SearchTextEvents.CanCoalesce` | ReactAndroid/src/main/java/com/facebook/react/views/toolbar/events/ToolbarSearchTextEvent.java:35-38 | text events are never coalesced |
| `SearchTextEvents.Dispatch` | ReactAndroid/src/main/java/com/facebook/react/views/toolbar/events/ToolbarSearchTextEvent.java:40-45 | one emission to the event's view tag under its name; the payload has exactly the key "text", mapped to the stored text |
| `SearchTextEvents.DispatchRoundTrip` | ReactAndroid/src/main/java/com/facebook/react/views/toolbar/events/ToolbarSearchTextEvent.java:25-45 | the text given to the constructor is what the receiver reads from the dispatched payload, under the view id and "topSearchText" |
| `ToolbarConfig.ShowAsAction` | ReactAndroid/src/main/java/com/facebook/react/views/toolbar/ReactToolbar.java:288-295 | all requested "show" bits are kept; WITH_TEXT is set iff showWithText is present and true or "show" already had it; with neither key the flags are SHOW_AS_ACTION_NEVER |
| `ToolbarConfig.LastSearchIndexIsLast` | ReactAndroid/src/main/java/com/facebook/react/views/toolbar/ReactToolbar.java:297-305 | the search item is the last action whose isSearch is true (absent means false); there is none exactly when no action is a search action |
| `ToolbarConfig.LastSearchIndexExtend` | ReactAndroid/src/main/java/com/facebook/react/views/toolbar/ReactToolbar.java:297-305 | each loop step either makes action i the search item or keeps the earlier one |
| `ToolbarConfig.GetIconImageInfo` | ReactAndroid/src/main/java/com/facebook/react/views/toolbar/ReactToolbar.java:415-423 | a size is attached iff both "width" and "height" are present |
| `ToolbarConfig.LookupDrawable` | ReactAndroid/src/main/java/com/facebook/react/views/toolbar/ReactToolbar.java:406-413 | a resource name resolves to its drawable, or to null when unknown |
| `ToolbarConfig.ClassifyIconSource` | ReactAndroid/src/main/java/com/facebook/react/views/toolbar/ReactToolbar.java:370-390 | a null source or URI sets a null drawable; a remote load starts iff the URI starts with http://, https:// or file://, carrying the URI and the size info; any other URI is resolved as a resource name |
| `ToolbarConfig.ClassificationExamples` | ReactAndroid/src/main/java/com/facebook/react/views/toolbar/ReactToolbar.java:377 | https and file URIs load remotely, with the size when one is given; prefix matching is case-sensitive, so "HTTP://x" is treated as a resource name |
| `ToolbarConfig.ActionIconAsWritten` | ReactAndroid/src/main/java/com/facebook/react/views/toolbar/ReactToolbar.java:136-140 | the action icon listener dereferences exactly the null drawables; otherwise it installs the drawable tinted with the nav tint colour |
| `ToolbarConfig.UnknownActionIconDereferencesNull` | ReactAndroid/src/main/java/com/facebook/react/views/toolbar/ReactToolbar.java:370-388 | an action icon naming an unknown resource reaches that listener as null, which it dereferences |
| `ToolbarConfig.ActionIconForAsWritten` | ReactAndroid/src/main/java/com/facebook/react/views/toolbar/ReactToolbar.java:370-388 | setting an action's icon source as written dereferences null exactly when its URI is null or is a non-remote name that no resource has |
| `ToolbarConfig.ActionIconForAgrees` | ReactAndroid/src/main/java/com/facebook/react/views/toolbar/ReactToolbar.java:136-140 | where the as-written path completes, it installs the same icon as the corrected one; where it dereferences null, the corrected one installs none |
| `ToolbarConfig.ActionIcon` | ReactAndroid/src/main/java/com/facebook/react/views/toolbar/ReactToolbar.java:136-140 | corrected listener: an icon is installed iff a drawable arrives, and then it agrees with the as-written listener |
| `ToolbarConfig.ActionIconFor` | ReactAndroid/src/main/java/com/facebook/react/views/toolbar/ReactToolbar.java:352-363 | when setActions returns, an action's item has an icon exactly when its URI is a known resource name (not remote); that icon is the resource's drawable with the current tint; remote icons are still loading |
| `ToolbarConfig.MenuFor` | ReactAndroid/src/main/java/com/facebook/react/views/toolbar/ReactToolbar.java:279-295 | one item per action; item i has order i, the action's title and its showAsAction flags; its icon is ActionIconFor of the action's icon source, or none without one, and any icon carries the current tint |
| `ToolbarConfig.MenuForExtend` | ReactAndroid/src/main/java/com/facebook/react/views/toolbar/ReactToolbar.java:279-282 | each loop step appends the item for action i, with order i, to the menu |
| `ToolbarConfig.Retinted` | ReactAndroid/src/main/java/com/facebook/react/views/toolbar/ReactToolbar.java:331-350 | order, title and flags of every item are kept; an item with an icon gets the same drawable with the new tint; an item without one gets none |
| `ToolbarConfig.RetintedTintedMenu` | ReactAndroid/src/main/java/com/facebook/react/views/toolbar/ReactToolbar.java:309 | re-tinting a freshly built menu, whose icons already carry the tint, changes nothing |
| `ToolbarConfig.NavIconAfterUpdate` | ReactAndroid/src/main/java/com/facebook/react/views/toolbar/ReactToolbar.java:323-329 | the override if there is one, else the loaded drawable, tinted with the nav tint colour; with neither, the shown icon stays |
| `ReactToolbar.Toolbar.constructor` | ReactAndroid/src/main/java/com/facebook/react/views/toolbar/ReactToolbar.java:173-203 | starts Hidden, with no search view, no saved text or placeholder, no icons, an empty menu, no events, and the default tint colour |
| `ReactToolbar.Toolbar.UpdateNavIcon` | ReactAndroid/src/main/java/com/facebook/react/views/toolbar/ReactToolbar.java:323-329 | the navigation icon becomes NavIconAfterUpdate of the override, the drawable, the tint and the icon shown before |
| `ReactToolbar.Toolbar.UpdateMenuItemColor` | ReactAndroid/src/main/java/com/facebook/react/views/toolbar/ReactToolbar.java:331-350 | the loop leaves the menu re-tinted with the current colour |
| `ReactToolbar.Toolbar.SetNavTintColor` | ReactAndroid/src/main/java/com/facebook/react/views/toolbar/ReactToolbar.java:312-321 | the tint, which getNavTintColor returns, becomes the colour; the navigation icon and every menu icon are re-tinted with it |
| `ReactToolbar.Toolbar.NavIconDrawableSet` | ReactAndroid/src/main/java/com/facebook/react/views/toolbar/ReactToolbar.java:187-193 | the loaded drawable is recorded and the navigation icon refreshed |
| `ReactToolbar.Toolbar.SetIconSource` | ReactAndroid/src/main/java/com/facebook/react/views/toolbar/ReactToolbar.java:262-272 | for logo, navigation and overflow icons: a remote URI changes nothing yet; otherwise only the chosen slot gets the classified drawable, and the navigation icon is refreshed for the navigation slot |
| `ReactToolbar.Toolbar.AddAction` | ReactAndroid/src/main/java/com/facebook/react/views/toolbar/ReactToolbar.java:280-305 | one loop step: the action's item is appended; a search action replaces the search view with a fresh one (empty query, no hint, iconified) and becomes the search item at its order; any other action leaves the search view and item alone |
| `ReactToolbar.Toolbar.SetActions` | ReactAndroid/src/main/java/com/facebook/react/views/toolbar/ReactToolbar.java:274-310 | the menu becomes MenuFor of the actions; a null array means an empty menu; if some action is a search action, a fresh search view (empty query, no hint, iconified) exists and the last search action's order is the search item; otherwise the previous search view and item are kept |
| `ReactToolbar.Toolbar.SetSearchState` | ReactAndroid/src/main/java/com/facebook/react/views/toolbar/ReactToolbar.java:453-490 | always ends in the given state. Visible→Hidden clears the override, refreshes the icon and saves the query. VisibleFocused installs the tinted back arrow and restores the query and hint. Hidden→VisibleNotFocused opens the view and restores the query and hint. Hidden→Hidden and visible→VisibleNotFocused change nothing else. Leaving Hidden needs a search view |
| `ReactToolbar.Toolbar.ShowSearch` | ReactAndroid/src/main/java/com/facebook/react/views/toolbar/ReactToolbar.java:425-430 | Hidden becomes VisibleNotFocused with the saved query and placeholder restored; from either visible state nothing changes |
| `ReactToolbar.Toolbar.HideSearch` | ReactAndroid/src/main/java/com/facebook/react/views/toolbar/ReactToolbar.java:432-435 | ends Hidden; from a visible state it saves the query and drops the back arrow; the search view itself is untouched |
| `ReactToolbar.Toolbar.SetSearchPlaceholder` | ReactAndroid/src/main/java/com/facebook/react/views/toolbar/ReactToolbar.java:495-500 | with a search view, hint and stored placeholder both become the value; without one, nothing changes |
| `ReactToolbar.Toolbar.SetSearchText` | ReactAndroid/src/main/java/com/facebook/react/views/toolbar/ReactToolbar.java:502-507 | with a search view, query and stored text both become the value; without one, nothing changes |
| `ReactToolbar.Toolbar.OnClose` | ReactAndroid/src/main/java/com/facebook/react/views/toolbar/ReactToolbar.java:551-563 | appends one cancelled event, ends Hidden with HideSearch's effects, returns false |
| `ReactToolbar.Toolbar.OnNavClicked` | ReactAndroid/src/main/java/com/facebook/react/views/toolbar/ReactToolbar.java:509-525 | when Hidden: exactly one click event at position -1 and nothing else changes. Otherwise: one cancelled event, ends Hidden with the query saved, then the view's query is emptied and the view iconified |
| `ReactToolbar.Toolbar.OnQueryTextSubmit` | ReactAndroid/src/main/java/com/facebook/react/views/toolbar/ReactToolbar.java:527-539 | appends one search-pressed event, ends VisibleNotFocused and returns false; the submitted text is not used |
| `ReactToolbar.Toolbar.OnQueryTextChange` | ReactAndroid/src/main/java/com/facebook/react/views/toolbar/ReactToolbar.java:541-549 | appends one search-text event carrying the new text and returns true; nothing else changes |
| `ReactToolbar.Toolbar.OnClick` | ReactAndroid/src/main/java/com/facebook/react/views/toolbar/ReactToolbar.java:565-574 | appends one click event at the search item's order, ends VisibleFocused with the tinted back arrow, and restores the saved query and placeholder |
| `ReactToolbar.SearchSession` | ReactAndroid/src/main/java/com/facebook/react/views/toolbar/ReactToolbar.java:453-490 | click the search item, type, submit, press navigation: events are click(0), search-text, search-pressed, cancelled in that order. The typed query is saved on hiding, and showSearch puts it back |
| `ReactToolbar.BackArrowOutlivesSearch` | ReactAndroid/src/main/java/com/facebook/react/views/toolbar/ReactToolbar.java:456-467 | with no navigation drawable loaded, the back arrow installed on focusing the search is still shown after the search is hidden |
| `ReactToolbar.NavClickWhileHidden` | ReactAndroid/src/main/java/com/facebook/react/views/toolbar/ReactToolbar.java:509-516 | on a fresh toolbar a navigation click is the single event click(-1), and the bar stays Hidden |

## Left out

- Image loading through Fresco/Drawee is not modelled: holders, controller builders and `onFinalImageSet`. A remote icon leaves state unchanged when its source is set. The icon's later arrival is `NavIconDrawableSet` for the navigation icon. For logo, overflow and action icons it is not modelled.
- The listener's stored `IconImageInfo` is not kept, because only image loading reads it.
- `GetIconImageInfo`: does not model the DIP-to-pixel conversion with `Math.round`. The info carries the requested values as given.
- Attach/detach of the image holders and the layout runnable are view-lifecycle plumbing with no state the model tracks.
- Nothing about the keyboard is modelled. Hiding the keyboard in `setSearchState` is a platform call and is treated as a no-op.
- `clearFocus` on the search view is a no-op in the model, because focus is not modelled.
- `updateMenuItemColor` also colours the text views found by title through `findViewsWithText`. This view search is a platform call and is not modelled; only icon tinting is.
- Android's `SearchView` calls the toolbar's listeners back from inside `setQuery` and `setIconified`. For example, `setQuery` reports a text change. These re-entrant calls are platform behaviour. The model treats each callback as a separate call.
- Drawables are values. The source tints drawable objects in place, so two holders of the same drawable would see each other's tint; that aliasing is not captured.
- Logging (`Log.d`, `Log.e`) is not modelled, and neither is the platform clock, which is a parameter.
- `setSearchPrompt` has an empty body in the source, so there is nothing to model.
- `getNavTintColor` returns the `navTintColor` field.
- The payloads of `ToolbarClickEvent`, `ToolbarSearchPressedEvent` and `ToolbarSearchCancelledEvent` are not modelled; the model's events carry only their constructor arguments.
- `React/Base/RCTImageSource.h` only holds Objective-C declarations, so there is nothing to model.
- A missing "uri" key in an icon source map is not modelled; the bridge throws on it. A present but null "uri" is modelled.
- SetActions: a missing "title" key on action i is not modelled. The bridge throws on it in the middle of the loop, after the menu was cleared and actions 0 to i-1 were added, possibly with a new search view and search item. The toolbar is then left with a partly rebuilt menu, and its icons are not re-tinted.
- SetActions: a present but null "title" is not modelled; `Action.title` is never null. In the source, the menu accepts a null title, and the next `updateMenuItemColor` then dereferences it. That call comes from `setActions` or from `setNavTintColor`.
- SetActions: entries present with a null value are not modelled. In `Action` and `IconSource`, None means the key is absent. In the source:
  - a null "icon" is dereferenced when its size is read;
  - a null "show", "showWithText" or "isSearch" throws partway through the loop, leaving a partly rebuilt menu as above;
  - a null "width" or "height" throws when the size is converted.
- UpdateMenuItemColor: assumes every item has a title; with a null one the source dereferences null, as the line above says.
- `SetActions`: for an action icon that resolves to null, the source dereferences null (see Findings). The model instead leaves the item without an icon.
- `OnQueryTextChange`: takes the new text as non-null, because the search view never reports a null query.

## Findings

| source | as written | input that shows it | evidently intended | confidence | as-written member | corrected member |
|---|---|---|---|---|---|---|
| ReactAndroid/src/main/java/com/facebook/react/views/toolbar/ReactToolbar.java:136-140 | the action icon listener's `setDrawable` calls `setColorFilter` on its argument without a null check. `setIconSource` hands it null for a null "uri" and for a resource name with no drawable | an action `{title: "a", icon: {uri: "ic_missing"}}` with no drawable resource named `ic_missing` | the item is left without an icon, as the navigation icon listener already tolerates null | medium, not executed | `ToolbarConfig.ActionIconForAsWritten` | `ToolbarConfig.ActionIcon` |
