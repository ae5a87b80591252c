/**
 * The filter panel: a selector (a trigger button and a popover listing the filter
 * items, or the Controller of the chosen one) and a list of chips, one per filter
 * that is set. Both read the same two inputs: the items and the registry that maps
 * each filter type tag to its pair of renderers.
 *
 * Rendering is modelled as the value the components describe: a chip, a menu entry,
 * the popover's content. A renderer is named by a `ComponentId` and an element by the
 * renderer and the props it gets. Callbacks are data of a type `A` chosen by whoever
 * builds the items; invoking one is returning it.
 */
module FilterPanel {
  import opened Wrappers
  import Seqs

  type TypeTag = string
  type ComponentId = string
  type Icon = string

  /** `FilterDefinition`: a type tag's Display and Controller; either may be absent at run time. */
  datatype Strategy = Strategy(display: Option<ComponentId>, controller: Option<ComponentId>)

  /** `FilterComponents`: the registry, fixed when the panel is set up. */
  type Registry = map<TypeTag, Strategy>

  /** `remove`: a zero-argument callback, or `false` when the filter cannot be removed. */
  datatype Removal<A> = Disabled | Callback(action: A)

  /**
   * `FilterItem`: `caption` is the source's `label`, `kind` its `type` (both are Dafny
   * keywords); `config` is the payload handed to the type's renderers.
   */
  datatype FilterItem<C, A> = FilterItem(
    caption: string, icon: Icon, isEnabled: bool, isSet: bool,
    remove: Removal<A>, kind: TypeTag, config: C)

  /** A renderer applied to its props. */
  datatype Element<C> = Element(component: ComponentId, props: C)

  /**
   * A chip's value segment: the Display shown on the popover trigger and the Controller
   * shown in the popover, both fed `props`. A None renderer is one the registry entry lacks.
   */
  datatype ValueCell<C> = ValueCell(display: Option<ComponentId>, controller: Option<ComponentId>, props: C)

  /** A chip: label segment, value segment (None renders nothing) and the remove control if any. */
  datatype Chip<C, A> = Chip(caption: string, icon: Icon, value: Option<ValueCell<C>>, removeControl: Option<A>)

  /** A row of the selector's browse list. */
  datatype MenuEntry = MenuEntry(caption: string, icon: Icon, disabled: bool)

  /** What the selector's popover holds. */
  datatype SelectorContent<C> =
    | Browse(search: string, entries: seq<MenuEntry>)
    | Edit(controller: Element<C>)
    | NoContent

  /** The selector's state as seen by the user. */
  datatype Phase = Closed | Browsing | Editing(index: nat)

  /** `components[type]?.Controller`. */
  function ControllerFor(registry: Registry, tag: TypeTag): (r: Option<ComponentId>)
    ensures r.Some? <==> tag in registry && registry[tag].controller.Some?
    ensures r.Some? ==> r == registry[tag].controller
  {
    if tag in registry then registry[tag].controller else None
  }

  // ---------------------------------------------------------------- chips

  /**
   * `FilterChipValue`: nothing when the item's type tag has no registry entry;
   * otherwise the entry's Display and Controller fed the item's config. Only the
   * entry is checked, not its two renderers.
   */
  function FilterChipValue<C, A>(item: FilterItem<C, A>, registry: Registry): (cell: Option<ValueCell<C>>)
    ensures cell.None? <==> item.kind !in registry
    ensures cell.Some? ==> cell.value.props == item.config
    ensures cell.Some? ==> (cell.value.display == registry[item.kind].display
                            && cell.value.controller == registry[item.kind].controller)
  {
    if item.kind !in registry then None
    else Some(ValueCell(registry[item.kind].display, registry[item.kind].controller, item.config))
  }

  /** `FilterChip`: the remove control exists exactly when `remove !== false`, and holds that callback. */
  function FilterChip<C, A>(item: FilterItem<C, A>, registry: Registry): (chip: Chip<C, A>)
    ensures chip.caption == item.caption && chip.icon == item.icon
    ensures chip.value == FilterChipValue(item, registry)
    ensures chip.removeControl.Some? <==> item.remove != Disabled
    ensures chip.removeControl.Some? ==> item.remove == Callback(chip.removeControl.value)
  {
    Chip(item.caption, item.icon, FilterChipValue(item, registry),
         if item.remove.Callback? then Some(item.remove.action) else None)
  }

  /** The callbacks that clicking a chip's remove button calls: `item.remove && item.remove()`. */
  function ClickRemove<C, A>(chip: Chip<C, A>): (called: seq<A>)
    requires chip.removeControl.Some?
    ensures |called| == 1
  {
    [chip.removeControl.value]
  }

  /** Activating the remove control of an item's chip calls the item's `remove` exactly once. */
  lemma RemoveCallsOnce<C, A>(item: FilterItem<C, A>, registry: Registry)
    requires item.remove.Callback?
    ensures FilterChip(item, registry).removeControl.Some?
    ensures ClickRemove(FilterChip(item, registry)) == [item.remove.action]
  {
  }

  predicate IsSet<C, A>(item: FilterItem<C, A>)
  {
    item.isSet
  }

  /** `FilterChips`: one chip per item with `isSet` (the others render `null`), in item order. */
  function Chips<C, A>(items: seq<FilterItem<C, A>>, registry: Registry): (chips: seq<Chip<C, A>>)
    ensures |chips| <= |items|
    ensures forall c :: c in chips ==> exists i :: 0 <= i < |items| && items[i].isSet && c == FilterChip(items[i], registry)
    ensures forall i :: 0 <= i < |items| && items[i].isSet ==> FilterChip(items[i], registry) in chips
  {
    var chip := (item: FilterItem<C, A>) => FilterChip(item, registry);
    Seqs.FilterMapMembers(items, IsSet, chip);
    Seqs.Map(Seqs.Filter(items, IsSet), chip)
  }

  /**
   * The chips are exactly those of the set items, in their original order: there are
   * increasing positions `idx`, chip `k` is the chip of item `idx[k]`, and an item's
   * position is among them exactly when the item is set.
   */
  lemma ChipsAreSetItems<C, A>(items: seq<FilterItem<C, A>>, registry: Registry) returns (idx: seq<nat>)
    ensures |idx| == |Chips(items, registry)|
    ensures forall k :: 0 <= k < |idx| ==> idx[k] < |items| && Chips(items, registry)[k] == FilterChip(items[idx[k]], registry)
    ensures forall k, l :: 0 <= k < l < |idx| ==> idx[k] < idx[l]
    ensures forall i :: 0 <= i < |items| ==> (items[i].isSet <==> i in idx)
  {
    idx := Seqs.FilterPositions(items, IsSet);
  }

  // ---------------------------------------------------------------- selector

  /** `hasFilters`: the loop over the items that returns as soon as one is set. */
  method HasFilters<C, A>(items: seq<FilterItem<C, A>>) returns (has: bool)
    ensures has <==> exists i :: 0 <= i < |items| && items[i].isSet
  {
    for i := 0 to |items|
      invariant forall j :: 0 <= j < i ==> !items[j].isSet
    {
      if items[i].isSet {
        return true;
      }
    }
    return false;
  }

  /** Whether the trigger shows its "Filter" text (`!hasFilters`). */
  function ShowsFilterText<C, A>(items: seq<FilterItem<C, A>>): (r: bool)
    ensures r <==> Seqs.Filter(items, IsSet) == []
  {
    if forall i :: 0 <= i < |items| ==> !items[i].isSet then
      Seqs.FilterNone(items, IsSet);
      true
    else
      false
  }

  /** The "Filter" text is shown exactly when there is no chip. */
  lemma {:induction false} FilterTextIffNoChips<C, A>(items: seq<FilterItem<C, A>>, registry: Registry)
    ensures ShowsFilterText(items) <==> Chips(items, registry) == []
  {
    var setItems := Seqs.Filter(items, IsSet);
    assert |Chips(items, registry)| == |setItems|;
    if !ShowsFilterText(items) {
      var i :| 0 <= i < |items| && items[i].isSet;
      assert items[i] in setItems;
    } else {
      Seqs.FilterNone(items, IsSet);
    }
  }

  /**
   * `selectedFilter`: nothing while the selected label is `undefined` or empty;
   * otherwise the position of the first item carrying that label, if any.
   */
  function SelectedFilter<C, A>(items: seq<FilterItem<C, A>>, selectedLabel: Option<string>): (r: Option<nat>)
    ensures selectedLabel.None? || selectedLabel == Some("") ==> r.None?
    ensures r.Some? ==> r.value < |items| && selectedLabel == Some(items[r.value].caption) && items[r.value].caption != ""
    ensures r.Some? ==> forall j :: 0 <= j < r.value ==> items[j].caption != items[r.value].caption
    ensures selectedLabel.Some? && selectedLabel.value != "" ==>
      (r.None? <==> forall j :: 0 <= j < |items| ==> items[j].caption != selectedLabel.value)
  {
    match selectedLabel
    case None => None
    case Some(l) =>
      if l == "" then None
      else Seqs.FindFirst(items, (item: FilterItem<C, A>) => item.caption == l)
  }

  /** `FilterSelectorMenuItem`: shows the item and is disabled exactly when the item is not enabled. */
  function MenuItem<C, A>(item: FilterItem<C, A>): (entry: MenuEntry)
    ensures entry.caption == item.caption && entry.icon == item.icon
    ensures entry.disabled <==> !item.isEnabled
  {
    MenuEntry(item.caption, item.icon, !item.isEnabled)
  }

  /** The browse list: one menu entry per item, in item order. */
  function BrowseEntries<C, A>(items: seq<FilterItem<C, A>>): (entries: seq<MenuEntry>)
    ensures |entries| == |items|
    ensures forall i :: 0 <= i < |items| ==> entries[i] == MenuItem(items[i])
  {
    Seqs.Map(items, MenuItem)
  }

  /**
   * `content`: with a selected filter, its type's Controller fed its config, or nothing
   * when the type has no Controller; without one, the searchable browse list.
   */
  function Content<C, A>(items: seq<FilterItem<C, A>>, registry: Registry,
                         selectedLabel: Option<string>, search: string): (r: SelectorContent<C>)
    ensures r.Browse? <==> SelectedFilter(items, selectedLabel).None?
    ensures r.Browse? ==> r.search == search && r.entries == BrowseEntries(items)
    ensures r.Edit? ==> var i := SelectedFilter(items, selectedLabel).value;
      ControllerFor(registry, items[i].kind) == Some(r.controller.component) && r.controller.props == items[i].config
    ensures r.NoContent? <==> SelectedFilter(items, selectedLabel).Some?
                              && ControllerFor(registry, items[SelectedFilter(items, selectedLabel).value].kind).None?
  {
    match SelectedFilter(items, selectedLabel)
    case None => Browse(search, BrowseEntries(items))
    case Some(i) =>
      match ControllerFor(registry, items[i].kind)
      case None => NoContent
      case Some(c) => Edit(Element(c, items[i].config))
  }

  /**
   * The popover's three cases, by label: the browse list when the label is unset,
   * empty or carried by no item; for the first item carrying it, that type's
   * Controller fed the item's config, or nothing when the type has no Controller.
   * A later item with the same label is never the one edited.
   */
  lemma {:induction false} ContentCases<C, A>(items: seq<FilterItem<C, A>>, registry: Registry,
                                              selectedLabel: Option<string>, search: string)
    ensures selectedLabel.None? || selectedLabel == Some("")
            || (forall j :: 0 <= j < |items| ==> selectedLabel != Some(items[j].caption))
            ==> Content(items, registry, selectedLabel, search) == Browse(search, Seqs.Map(items, MenuItem))
    ensures forall i :: 0 <= i < |items| && selectedLabel == Some(items[i].caption) && items[i].caption != ""
                        && (forall j :: 0 <= j < i ==> items[j].caption != items[i].caption) ==>
            Content(items, registry, selectedLabel, search) ==
              (if items[i].kind in registry && registry[items[i].kind].controller.Some?
               then Edit(Element(registry[items[i].kind].controller.value, items[i].config))
               else NoContent)
  {
    var sel := SelectedFilter(items, selectedLabel);
    forall i | 0 <= i < |items| && selectedLabel == Some(items[i].caption) && items[i].caption != ""
               && (forall j :: 0 <= j < i ==> items[j].caption != items[i].caption)
      ensures sel == Some(i)
    {
      assert sel.Some?;
    }
  }

  /**
   * `FilterSelector`'s local state: whether the popover is open, the search text and
   * the selected label. The delays before the clears on close are collapsed: closing
   * clears both at once. While the popover is closed, the state is idle.
   */
  class Selector {
    var open: bool
    var search: string
    var selectedLabel: Option<string>

    ghost predicate Valid()
      reads this
    {
      !open ==> search == "" && selectedLabel == None
    }

    /** The initial `useState` values. */
    constructor ()
      ensures Valid()
      ensures !open && search == "" && selectedLabel == None
    {
      open := false;
      search := "";
      selectedLabel := None;
    }

    /** Closed, browsing the list, or editing the item at `index`. */
    function Phase<C, A>(items: seq<FilterItem<C, A>>): (p: Phase)
      reads this
      ensures p.Closed? <==> !open
      ensures p.Browsing? <==> open && SelectedFilter(items, selectedLabel).None?
      ensures p.Editing? ==> p.index < |items| && selectedLabel == Some(items[p.index].caption)
      ensures p.Editing? ==> SelectedFilter(items, selectedLabel) == Some(p.index)
    {
      if !open then Closed
      else match SelectedFilter(items, selectedLabel)
        case None => Browsing
        case Some(i) => Editing(i)
    }

    /** The popover's content, shown only while it is open. */
    function View<C, A>(items: seq<FilterItem<C, A>>, registry: Registry): (r: Option<SelectorContent<C>>)
      reads this
      ensures r.Some? <==> open
      ensures open ==> r == Some(Content(items, registry, selectedLabel, search))
    {
      if open then Some(Content(items, registry, selectedLabel, search)) else None
    }

    /**
     * `onOpenChange`: sets `open`; on close, the selected label is cleared and, by the
     * effect on `open`, so is the search text.
     */
    method OnOpenChange(value: bool)
      requires Valid()
      modifies this
      ensures Valid()
      ensures open == value
      ensures !value ==> search == "" && selectedLabel == None
      ensures value ==> search == old(search) && selectedLabel == old(selectedLabel)
    {
      open := value;
      if !value {
        selectedLabel := None;
        search := "";
      }
    }

    /** Opening a closed selector shows the browse list with an empty search. */
    method Open<C, A>(items: seq<FilterItem<C, A>>, registry: Registry)
      requires Valid() && !open
      modifies this
      ensures Valid()
      ensures Phase(items) == Browsing
      ensures View(items, registry) == Some(Browse("", BrowseEntries(items)))
    {
      OnOpenChange(true);
    }

    /** Typing into the browse list's search input. */
    method OnSearchChange(text: string)
      requires Valid() && open
      modifies this
      ensures Valid()
      ensures search == text && open == old(open) && selectedLabel == old(selectedLabel)
    {
      search := text;
    }

    /**
     * Choosing the enabled `k`-th entry of the visible browse list: `setSelectedFilterLabel`
     * with its label, then the effect on the selected label, which clears the search text
     * when the label changed and is not empty.
     */
    method SelectMenuItem<C, A>(items: seq<FilterItem<C, A>>, k: nat)
      requires Valid() && open
      requires k < |items| && items[k].isEnabled
      requires SelectedFilter(items, selectedLabel).None?
      modifies this
      ensures Valid()
      ensures open && selectedLabel == Some(items[k].caption)
      ensures search == (if old(selectedLabel) != selectedLabel && items[k].caption != "" then "" else old(search))
      ensures items[k].caption != "" ==> search == ""
      ensures items[k].caption == "" ==> Phase(items) == Browsing
      ensures items[k].caption != "" ==>
        Phase(items).Editing? && Phase(items).index <= k && items[Phase(items).index].caption == items[k].caption
    {
      var changed := selectedLabel != Some(items[k].caption);
      selectedLabel := Some(items[k].caption);
      if changed && items[k].caption != "" {
        search := "";
      }
      assert items[k].caption != "" ==> SelectedFilter(items, selectedLabel).Some?;
    }
  }
}
