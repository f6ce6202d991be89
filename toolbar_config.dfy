/**
 * The pure rules inside the toolbar's property setters: the flags and order
 * given to each action's menu item, which action becomes the search item,
 * how an icon source's URI is classified, which drawable the navigation
 * icon shows, and how menu icons are re-tinted.
 */
module ToolbarConfig {
  import opened Wrappers

  /** MenuItem.SHOW_AS_ACTION_NEVER and MenuItem.SHOW_AS_ACTION_WITH_TEXT (Java ints). */
  const SHOW_AS_ACTION_NEVER: bv32 := 0
  const SHOW_AS_ACTION_WITH_TEXT: bv32 := 4

  /** A drawable handle; BackArrow is the platform's back-arrow resource installed while searching. */
  datatype Drawable = BackArrow | Bitmap(handle: nat)

  /** A drawable with the colour filter it was last tinted with. */
  datatype TintedIcon = TintedIcon(drawable: Drawable, tint: int)

  /** An icon source map: the "uri", "width" and "height" entries (uri may be null). */
  datatype IconSource = IconSource(uri: Option<string>, width: Option<int>, height: Option<int>)

  /** The requested icon size, as given in the source map. */
  datatype IconImageInfo = IconImageInfo(width: int, height: int)

  /** One entry of the actions array: "title", "icon", "show", "showWithText", "isSearch". */
  datatype Action = Action(
    title: string,
    icon: Option<IconSource>,
    show: Option<bv32>,
    showWithText: Option<bool>,
    isSearch: Option<bool>)

  /** A menu item as the toolbar's menu holds it. */
  datatype MenuItem = MenuItem(order: int, title: string, showAsAction: bv32, icon: Option<TintedIcon>)

  /** What setting an icon source does: hand a drawable (maybe null) to the listener now, or start a remote load. */
  datatype IconLoad = SetDrawable(drawable: Option<Drawable>) | LoadRemote(uri: string, info: Option<IconImageInfo>)

  /** The outcome of a call that may dereference null. */
  datatype Outcome<T> = Completed(value: T) | NullDereference

  // ---------------------------------------------------------------------------
  // Action flags

  /** The "show" entry, or SHOW_AS_ACTION_NEVER when it is absent. */
  function RequestedShow(a: Action): bv32 {
    a.show.GetOr(SHOW_AS_ACTION_NEVER)
  }

  /** The showAsAction flags of an action's menu item. */
  function ShowAsAction(a: Action): (flags: bv32)
    ensures (flags & SHOW_AS_ACTION_WITH_TEXT != 0) <==>
            (a.showWithText == Some(true) || RequestedShow(a) & SHOW_AS_ACTION_WITH_TEXT != 0)
    ensures flags & !SHOW_AS_ACTION_WITH_TEXT == RequestedShow(a) & !SHOW_AS_ACTION_WITH_TEXT
    ensures a.show.None? && a.showWithText != Some(true) ==> flags == SHOW_AS_ACTION_NEVER
  {
    var requested := RequestedShow(a);
    if a.showWithText == Some(true) then requested | SHOW_AS_ACTION_WITH_TEXT else requested
  }

  /** "isSearch", false when absent. */
  predicate IsSearch(a: Action) {
    a.isSearch == Some(true)
  }

  /** The index of the last search action, the one whose item ends up as the search item. */
  function LastSearchIndex(actions: seq<Action>): Option<nat>
  {
    if |actions| == 0 then None
    else if IsSearch(actions[|actions| - 1]) then Some(|actions| - 1)
    else LastSearchIndex(actions[..|actions| - 1])
  }

  /** LastSearchIndex finds a search action exactly when there is one, and no later action is a search action. */
  lemma {:induction false} LastSearchIndexIsLast(actions: seq<Action>)
    ensures LastSearchIndex(actions).None? <==> forall j :: 0 <= j < |actions| ==> !IsSearch(actions[j])
    ensures LastSearchIndex(actions).Some? ==>
              var k := LastSearchIndex(actions).value;
              k < |actions| && IsSearch(actions[k]) &&
              forall j :: k < j < |actions| ==> !IsSearch(actions[j])
  {
    if |actions| > 0 && !IsSearch(actions[|actions| - 1]) {
      var prefix := actions[..|actions| - 1];
      LastSearchIndexIsLast(prefix);
      assert forall j :: 0 <= j < |prefix| ==> prefix[j] == actions[j];
    }
  }

  /** Appending an action either makes it the last search action or leaves the answer as it was. */
  lemma LastSearchIndexExtend(actions: seq<Action>, i: nat)
    requires i < |actions|
    ensures LastSearchIndex(actions[..i + 1]) == if IsSearch(actions[i]) then Some(i) else LastSearchIndex(actions[..i])
  {
    assert actions[..i + 1][..i] == actions[..i];
  }

  // ---------------------------------------------------------------------------
  // Icon sources

  predicate HasPrefix(s: string, prefix: string) {
    |prefix| <= |s| && s[..|prefix|] == prefix
  }

  /** A URI that the image pipeline loads: a remote or local-file one. Matching is case-sensitive. */
  predicate IsRemoteUri(uri: string) {
    HasPrefix(uri, "http://") || HasPrefix(uri, "https://") || HasPrefix(uri, "file://")
  }

  /** A size is attached only when both "width" and "height" are present. */
  function GetIconImageInfo(source: IconSource): (info: Option<IconImageInfo>)
    ensures info.Some? <==> source.width.Some? && source.height.Some?
    ensures info.Some? ==> info.value.width == source.width.value && info.value.height == source.height.value
  {
    if source.width.Some? && source.height.Some? then Some(IconImageInfo(source.width.value, source.height.value))
    else None
  }

  /** Resolving a drawable by resource name; an unknown name (identifier 0) gives null. */
  function LookupDrawable(resources: map<string, Drawable>, name: string): (d: Option<Drawable>)
    ensures d.Some? <==> name in resources
    ensures d.Some? ==> d.value == resources[name]
  {
    if name in resources then Some(resources[name]) else None
  }

  /** What setting an icon source does, from its URI. */
  function ClassifyIconSource(source: Option<IconSource>, resources: map<string, Drawable>): (load: IconLoad)
    ensures source.None? || source.value.uri.None? ==> load == SetDrawable(None)
    ensures load.LoadRemote? <==> source.Some? && source.value.uri.Some? && IsRemoteUri(source.value.uri.value)
    ensures load.LoadRemote? ==>
              load.uri == source.value.uri.value && load.info == GetIconImageInfo(source.value)
    ensures source.Some? && source.value.uri.Some? && !IsRemoteUri(source.value.uri.value) ==>
              load == SetDrawable(LookupDrawable(resources, source.value.uri.value))
  {
    if source.None? || source.value.uri.None? then SetDrawable(None)
    else if IsRemoteUri(source.value.uri.value) then
      LoadRemote(source.value.uri.value, GetIconImageInfo(source.value))
    else SetDrawable(LookupDrawable(resources, source.value.uri.value))
  }

  /** A resource name is never mistaken for a remote URI, and a remote URI never reaches the resource table. */
  lemma ClassificationExamples(resources: map<string, Drawable>)
    ensures ClassifyIconSource(Some(IconSource(Some("https://x/a.png"), None, None)), resources).LoadRemote?
    ensures ClassifyIconSource(Some(IconSource(Some("file:///a.png"), Some(24), Some(24))), resources)
            == LoadRemote("file:///a.png", Some(IconImageInfo(24, 24)))
    ensures ClassifyIconSource(Some(IconSource(Some("HTTP://x"), None, None)), resources)
            == SetDrawable(LookupDrawable(resources, "HTTP://x"))
  {
    assert HasPrefix("https://x/a.png", "https://");
    assert HasPrefix("file:///a.png", "file://");
    assert !HasPrefix("HTTP://x", "http://") by { assert "HTTP://x"[0] != "http://"[0]; }
    assert !HasPrefix("HTTP://x", "https://") by { assert "HTTP://x"[0] != "https://"[0]; }
    assert !HasPrefix("HTTP://x", "file://") by { assert "HTTP://x"[0] != "file://"[0]; }
  }

  // ---------------------------------------------------------------------------
  // Action icons

  /**
   * The action icon listener's setDrawable as written: it tints the drawable
   * it is given before installing it, so a null drawable is dereferenced.
   */
  function ActionIconAsWritten(d: Option<Drawable>, tint: int): (r: Outcome<TintedIcon>)
    ensures r.NullDereference? <==> d.None?
    ensures r.Completed? ==> r.value.drawable == d.value && r.value.tint == tint
  {
    if d.None? then NullDereference else Completed(TintedIcon(d.value, tint))
  }

  /** An action icon whose URI is a resource name the resources do not know reaches the listener as null. */
  lemma UnknownActionIconDereferencesNull(tint: int)
    ensures ClassifyIconSource(Some(IconSource(Some("ic_missing"), None, None)), map[]) == SetDrawable(None)
    ensures ActionIconAsWritten(None, tint).NullDereference?
  {
    assert !HasPrefix("ic_missing", "http://") by { assert "ic_missing"[0] != "http://"[0]; }
    assert !HasPrefix("ic_missing", "https://") by { assert "ic_missing"[0] != "https://"[0]; }
    assert !HasPrefix("ic_missing", "file://") by { assert "ic_missing"[0] != "file://"[0]; }
  }

  /**
   * What setting an action's icon source does when setActions adds the item,
   * as written: the listener dereferences null exactly when the URI is null or
   * names no resource; a remote URI leaves the item without an icon for now.
   */
  function ActionIconForAsWritten(source: IconSource, tint: int, resources: map<string, Drawable>): (r: Outcome<Option<TintedIcon>>)
    ensures r.NullDereference? <==>
              source.uri.None? || (!IsRemoteUri(source.uri.value) && source.uri.value !in resources)
  {
    match ClassifyIconSource(Some(source), resources)
    case SetDrawable(d) =>
      (match ActionIconAsWritten(d, tint)
       case Completed(icon) => Completed(Some(icon))
       case NullDereference => NullDereference)
    case LoadRemote(_, _) => Completed(None)
  }

  /** The action icon listener's setDrawable, with a null drawable leaving the item without an icon. */
  function ActionIcon(d: Option<Drawable>, tint: int): (r: Option<TintedIcon>)
    ensures r.Some? <==> d.Some?
    ensures d.Some? ==> ActionIconAsWritten(d, tint) == Completed(r.value)
  {
    if d.Some? then Some(TintedIcon(d.value, tint)) else None
  }

  /** The icon an action's item has once setActions returns; a remote icon arrives later through the image pipeline. */
  function ActionIconFor(source: IconSource, tint: int, resources: map<string, Drawable>): (r: Option<TintedIcon>)
    ensures r.Some? ==> r.value.tint == tint
    ensures r.Some? ==> source.uri.Some? && !IsRemoteUri(source.uri.value) && source.uri.value in resources
                        && r.value.drawable == resources[source.uri.value]
    ensures source.uri.Some? && !IsRemoteUri(source.uri.value) && source.uri.value in resources ==>
              r == Some(TintedIcon(resources[source.uri.value], tint))
  {
    match ClassifyIconSource(Some(source), resources)
    case SetDrawable(d) => ActionIcon(d, tint)
    case LoadRemote(_, _) => None
  }

  /** Wherever the as-written listener does not dereference null, it installs the same icon as the corrected one. */
  lemma ActionIconForAgrees(source: IconSource, tint: int, resources: map<string, Drawable>)
    ensures ActionIconForAsWritten(source, tint, resources).Completed? ==>
              ActionIconForAsWritten(source, tint, resources).value == ActionIconFor(source, tint, resources)
    ensures ActionIconForAsWritten(source, tint, resources).NullDereference? ==> ActionIconFor(source, tint, resources).None?
  {
  }

  // ---------------------------------------------------------------------------
  // Menu

  /** The menu item added for action `a` at array index `order`. */
  function ItemFor(a: Action, order: nat, tint: int, resources: map<string, Drawable>): MenuItem {
    MenuItem(order, a.title, ShowAsAction(a),
             if a.icon.Some? then ActionIconFor(a.icon.value, tint, resources) else None)
  }

  /** The menu built from an actions array: one item per action, in array order. */
  function MenuFor(actions: seq<Action>, tint: int, resources: map<string, Drawable>): (menu: seq<MenuItem>)
    ensures |menu| == |actions|
    ensures forall k :: 0 <= k < |menu| ==>
              menu[k].order == k && menu[k].title == actions[k].title && menu[k].showAsAction == ShowAsAction(actions[k])
    ensures forall k :: 0 <= k < |menu| && menu[k].icon.Some? ==> actions[k].icon.Some? && menu[k].icon.value.tint == tint
    ensures forall k :: 0 <= k < |menu| ==>
              menu[k].icon == (if actions[k].icon.Some? then ActionIconFor(actions[k].icon.value, tint, resources) else None)
  {
    seq(|actions|, k requires 0 <= k < |actions| => ItemFor(actions[k], k, tint, resources))
  }

  /** Appending an action appends its item, ordered by its index, to the menu. */
  lemma MenuForExtend(actions: seq<Action>, i: nat, tint: int, resources: map<string, Drawable>)
    requires i < |actions|
    ensures MenuFor(actions[..i + 1], tint, resources) == MenuFor(actions[..i], tint, resources) + [ItemFor(actions[i], i, tint, resources)]
  {
  }

  /** An item re-tinted with `tint`; an item without an icon is left alone. */
  function Retint(item: MenuItem, tint: int): MenuItem {
    if item.icon.Some? then item.(icon := Some(item.icon.value.(tint := tint))) else item
  }

  /** Every item re-tinted with `tint`. */
  function Retinted(menu: seq<MenuItem>, tint: int): (r: seq<MenuItem>)
    ensures |r| == |menu|
    ensures forall k :: 0 <= k < |r| ==>
              r[k].order == menu[k].order && r[k].title == menu[k].title && r[k].showAsAction == menu[k].showAsAction
    ensures forall k :: 0 <= k < |r| ==>
              (r[k].icon.Some? <==> menu[k].icon.Some?) &&
              (r[k].icon.Some? ==> r[k].icon.value == TintedIcon(menu[k].icon.value.drawable, tint))
  {
    seq(|menu|, k requires 0 <= k < |menu| => Retint(menu[k], tint))
  }

  /** Re-tinting a menu whose icons already carry `tint` changes nothing. */
  lemma RetintedTintedMenu(menu: seq<MenuItem>, tint: int)
    requires forall k :: 0 <= k < |menu| && menu[k].icon.Some? ==> menu[k].icon.value.tint == tint
    ensures Retinted(menu, tint) == menu
  {
  }

  // ---------------------------------------------------------------------------
  // Navigation icon

  /**
   * The navigation icon after updateNavIcon: the override if there is one,
   * else the loaded drawable, tinted with the current colour; with neither,
   * whatever was shown stays.
   */
  function NavIconAfterUpdate(override: Option<Drawable>, loaded: Option<Drawable>, tint: int,
                              shown: Option<TintedIcon>): (r: Option<TintedIcon>)
    ensures override.Some? ==> r == Some(TintedIcon(override.value, tint))
    ensures override.None? && loaded.Some? ==> r == Some(TintedIcon(loaded.value, tint))
    ensures override.None? && loaded.None? ==> r == shown
  {
    var icon := if override.Some? then override else loaded;
    if icon.Some? then Some(TintedIcon(icon.value, tint)) else shown
  }
}
