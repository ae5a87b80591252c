/**
 * The older variant of the filter panel: the same selector and chip list, where an
 * item's payload is called `meta` and where a chip's value segment is shown only when
 * the registry entry has both its Display and its Controller. It describes what it
 * renders with the panel's view vocabulary (chips, value cells, menu entries, popover
 * content), and the lemmas at the end state how the two variants agree and differ.
 */
module FilterContainer {
  import opened Wrappers
  import Seqs
  import FilterPanel

  type Registry = FilterPanel.Registry

  /** The container's `FilterItem`: `caption` is `label`, `kind` is `type`, `meta` the payload. */
  datatype FilterItem<M, A> = FilterItem(
    caption: string, icon: FilterPanel.Icon, isEnabled: bool, isSet: bool,
    remove: FilterPanel.Removal<A>, kind: FilterPanel.TypeTag, meta: M)

  /**
   * `PropertyFilterValueController`: nothing unless the item's type has both a Display
   * and a Controller; otherwise both fed the item's meta.
   */
  function PropertyFilterValueController<M, A>(filter: FilterItem<M, A>, registry: Registry): (cell: Option<FilterPanel.ValueCell<M>>)
    ensures cell.Some? <==> filter.kind in registry && registry[filter.kind].display.Some? && registry[filter.kind].controller.Some?
    ensures cell.Some? ==> (cell.value.props == filter.meta
                            && cell.value.display == registry[filter.kind].display
                            && cell.value.controller == registry[filter.kind].controller)
  {
    if filter.kind !in registry then None
    else
      var s := registry[filter.kind];
      if s.controller.None? || s.display.None? then None
      else Some(FilterPanel.ValueCell(s.display, s.controller, filter.meta))
  }

  /** `PropertyFilterListItem`: the remove button exists exactly when `remove !== false`, and calls it. */
  function PropertyFilterListItem<M, A>(filter: FilterItem<M, A>, registry: Registry): (chip: FilterPanel.Chip<M, A>)
    ensures chip.caption == filter.caption && chip.icon == filter.icon
    ensures chip.value == PropertyFilterValueController(filter, registry)
    ensures chip.removeControl.Some? <==> filter.remove != FilterPanel.Disabled
    ensures chip.removeControl.Some? ==> filter.remove == FilterPanel.Callback(chip.removeControl.value)
  {
    FilterPanel.Chip(filter.caption, filter.icon, PropertyFilterValueController(filter, registry),
                     if filter.remove.Callback? then Some(filter.remove.action) else None)
  }

  predicate IsSet<M, A>(filter: FilterItem<M, A>)
  {
    filter.isSet
  }

  /** `PropertyFilterList`: one chip per filter with `isSet`, in filter order. */
  function PropertyFilterList<M, A>(filters: seq<FilterItem<M, A>>, registry: Registry): (chips: seq<FilterPanel.Chip<M, A>>)
    ensures |chips| <= |filters|
    ensures forall c :: c in chips ==> exists i :: 0 <= i < |filters| && filters[i].isSet && c == PropertyFilterListItem(filters[i], registry)
    ensures forall i :: 0 <= i < |filters| && filters[i].isSet ==> PropertyFilterListItem(filters[i], registry) in chips
  {
    var chip := (f: FilterItem<M, A>) => PropertyFilterListItem(f, registry);
    Seqs.FilterMapMembers(filters, IsSet, chip);
    Seqs.Map(Seqs.Filter(filters, IsSet), chip)
  }

  /** The listed chips are exactly those of the set filters, in their original order. */
  lemma ListedAreSetFilters<M, A>(filters: seq<FilterItem<M, A>>, registry: Registry) returns (idx: seq<nat>)
    ensures |idx| == |PropertyFilterList(filters, registry)|
    ensures forall k :: 0 <= k < |idx| ==>
      idx[k] < |filters| && PropertyFilterList(filters, registry)[k] == PropertyFilterListItem(filters[idx[k]], registry)
    ensures forall k, l :: 0 <= k < l < |idx| ==> idx[k] < idx[l]
    ensures forall i :: 0 <= i < |filters| ==> (filters[i].isSet <==> i in idx)
  {
    idx := Seqs.FilterPositions(filters, IsSet);
  }

  /** `hasFilters`: the `for` loop that returns as soon as a filter is set. */
  method HasFilters<M, A>(filters: seq<FilterItem<M, A>>) returns (has: bool)
    ensures has <==> exists i :: 0 <= i < |filters| && filters[i].isSet
  {
    var i := 0;
    while i < |filters|
      invariant i <= |filters|
      invariant forall j :: 0 <= j < i ==> !filters[j].isSet
    {
      if filters[i].isSet {
        return true;
      }
      i := i + 1;
    }
    return false;
  }

  /** Whether the trigger shows its "Filter" text (`!hasFilters`). */
  function ShowsFilterText<M, A>(filters: seq<FilterItem<M, A>>): (r: bool)
    ensures r <==> Seqs.Filter(filters, IsSet) == []
  {
    if forall i :: 0 <= i < |filters| ==> !filters[i].isSet then
      Seqs.FilterNone(filters, IsSet);
      true
    else
      false
  }

  /** The "Filter" text is shown exactly when the chip list is empty. */
  lemma {:induction false} FilterTextIffNoChips<M, A>(filters: seq<FilterItem<M, A>>, registry: Registry)
    ensures ShowsFilterText(filters) <==> PropertyFilterList(filters, registry) == []
  {
    var setFilters := Seqs.Filter(filters, IsSet);
    assert |PropertyFilterList(filters, registry)| == |setFilters|;
    if !ShowsFilterText(filters) {
      var i :| 0 <= i < |filters| && filters[i].isSet;
      assert filters[i] in setFilters;
    } else {
      Seqs.FilterNone(filters, IsSet);
    }
  }

  /** `selectedFilter`: none for an `undefined` or empty label, else the first filter carrying it. */
  function SelectedFilter<M, A>(filters: seq<FilterItem<M, A>>, selectedLabel: Option<string>): (r: Option<nat>)
    ensures selectedLabel.None? || selectedLabel == Some("") ==> r.None?
    ensures r.Some? ==> r.value < |filters| && selectedLabel == Some(filters[r.value].caption) && filters[r.value].caption != ""
    ensures r.Some? ==> forall j :: 0 <= j < r.value ==> filters[j].caption != filters[r.value].caption
    ensures selectedLabel.Some? && selectedLabel.value != "" ==>
      (r.None? <==> forall j :: 0 <= j < |filters| ==> filters[j].caption != selectedLabel.value)
  {
    match selectedLabel
    case None => None
    case Some(l) =>
      if l == "" then None
      else Seqs.FindFirst(filters, (f: FilterItem<M, A>) => f.caption == l)
  }

  /** `TableFilterMenuItem`: disabled exactly when the filter is not enabled. */
  function TableFilterMenuItem<M, A>(filter: FilterItem<M, A>): (entry: FilterPanel.MenuEntry)
    ensures entry.caption == filter.caption && entry.icon == filter.icon
    ensures entry.disabled <==> !filter.isEnabled
  {
    FilterPanel.MenuEntry(filter.caption, filter.icon, !filter.isEnabled)
  }

  /** `content`: the selected filter's Controller fed its meta, nothing without one, else the browse list. */
  function Content<M, A>(filters: seq<FilterItem<M, A>>, registry: Registry,
                         selectedLabel: Option<string>, search: string): (r: FilterPanel.SelectorContent<M>)
    ensures r.Browse? <==> SelectedFilter(filters, selectedLabel).None?
    ensures r.Browse? ==> r.search == search && r.entries == Seqs.Map(filters, TableFilterMenuItem)
    ensures r.Edit? ==> var i := SelectedFilter(filters, selectedLabel).value;
      FilterPanel.ControllerFor(registry, filters[i].kind) == Some(r.controller.component) && r.controller.props == filters[i].meta
    ensures r.NoContent? <==> SelectedFilter(filters, selectedLabel).Some?
                              && FilterPanel.ControllerFor(registry, filters[SelectedFilter(filters, selectedLabel).value].kind).None?
  {
    match SelectedFilter(filters, selectedLabel)
    case None => FilterPanel.Browse(search, Seqs.Map(filters, TableFilterMenuItem))
    case Some(i) =>
      match FilterPanel.ControllerFor(registry, filters[i].kind)
      case None => FilterPanel.NoContent
      case Some(c) => FilterPanel.Edit(FilterPanel.Element(c, filters[i].meta))
  }

  /** `TableFilter`'s local state, with the close delays collapsed; idle while closed. */
  class TableFilter {
    var open: bool
    var search: string
    var selectedLabel: Option<string>

    ghost predicate Valid()
      reads this
    {
      !open ==> search == "" && selectedLabel == None
    }

    constructor ()
      ensures Valid()
      ensures !open && search == "" && selectedLabel == None
    {
      open := false;
      search := "";
      selectedLabel := None;
    }

    function Phase<M, A>(filters: seq<FilterItem<M, A>>): (p: FilterPanel.Phase)
      reads this
      ensures p.Closed? <==> !open
      ensures p.Browsing? <==> open && SelectedFilter(filters, selectedLabel).None?
      ensures p.Editing? ==> p.index < |filters| && selectedLabel == Some(filters[p.index].caption)
      ensures p.Editing? ==> SelectedFilter(filters, selectedLabel) == Some(p.index)
    {
      if !open then FilterPanel.Closed
      else match SelectedFilter(filters, selectedLabel)
        case None => FilterPanel.Browsing
        case Some(i) => FilterPanel.Editing(i)
    }

    function View<M, A>(filters: seq<FilterItem<M, A>>, registry: Registry): (r: Option<FilterPanel.SelectorContent<M>>)
      reads this
      ensures r.Some? <==> open
      ensures open ==> r == Some(Content(filters, registry, selectedLabel, search))
    {
      if open then Some(Content(filters, registry, selectedLabel, search)) else None
    }

    /** `onOpenChange`: on close the selected label and the search text are cleared. */
    method OnOpenChange(value: bool)
      requires Valid()
      modifies this
      ensures Valid()
      ensures open == value
      ensures !value ==> search == "" && selectedLabel == None
      ensures value ==> search == old(search) && selectedLabel == old(selectedLabel)
    {
      open := value;
      if !value {
        selectedLabel := None;
        search := "";
      }
    }

    method OnSearchChange(text: string)
      requires Valid() && open
      modifies this
      ensures Valid()
      ensures search == text && open == old(open) && selectedLabel == old(selectedLabel)
    {
      search := text;
    }

    /** Choosing the enabled `k`-th filter in the browse list; the search clears when a label is set. */
    method SelectMenuItem<M, A>(filters: seq<FilterItem<M, A>>, k: nat)
      requires Valid() && open
      requires k < |filters| && filters[k].isEnabled
      requires SelectedFilter(filters, selectedLabel).None?
      modifies this
      ensures Valid()
      ensures open && selectedLabel == Some(filters[k].caption)
      ensures search == (if old(selectedLabel) != selectedLabel && filters[k].caption != "" then "" else old(search))
      ensures filters[k].caption != "" ==> search == ""
      ensures filters[k].caption == "" ==> Phase(filters) == FilterPanel.Browsing
      ensures filters[k].caption != "" ==>
        Phase(filters).Editing? && Phase(filters).index <= k && filters[Phase(filters).index].caption == filters[k].caption
    {
      var changed := selectedLabel != Some(filters[k].caption);
      selectedLabel := Some(filters[k].caption);
      if changed && filters[k].caption != "" {
        search := "";
      }
      assert filters[k].caption != "" ==> SelectedFilter(filters, selectedLabel).Some?;
    }
  }

  // ---------------------------------------------------------------- the two variants

  /** The panel's item with the same fields, `meta` as `config`. */
  function ToPanel<M, A>(f: FilterItem<M, A>): FilterPanel.FilterItem<M, A>
  {
    FilterPanel.FilterItem(f.caption, f.icon, f.isEnabled, f.isSet, f.remove, f.kind, f.meta)
  }

  /**
   * The container's value segment is the panel's whenever it is shown, but the panel
   * also shows one when the type's entry lacks its Display or its Controller.
   */
  lemma ValueCellStricterThanPanel<M, A>(f: FilterItem<M, A>, registry: Registry)
    ensures PropertyFilterValueController(f, registry).Some? ==>
              FilterPanel.FilterChipValue(ToPanel(f), registry) == PropertyFilterValueController(f, registry)
    ensures PropertyFilterValueController(f, registry).None? && FilterPanel.FilterChipValue(ToPanel(f), registry).Some? <==>
              f.kind in registry && (registry[f.kind].display.None? || registry[f.kind].controller.None?)
  {
  }

  /** The container's chips are the panel's, position by position, apart from the value segment. */
  lemma {:induction false} ChipsAgree<M, A>(filters: seq<FilterItem<M, A>>, registry: Registry)
    ensures var mine, theirs := PropertyFilterList(filters, registry), FilterPanel.Chips(Seqs.Map(filters, ToPanel), registry);
      && |mine| == |theirs|
      && (forall k :: 0 <= k < |mine| ==> mine[k] == theirs[k].(value := mine[k].value))
  {
    var items := Seqs.Map(filters, ToPanel);
    Seqs.FilterMap(filters, ToPanel, FilterPanel.IsSet, IsSet);
    var setFilters := Seqs.Filter(filters, IsSet);
    assert Seqs.Filter(items, FilterPanel.IsSet) == Seqs.Map(setFilters, ToPanel);
    var mine, theirs := PropertyFilterList(filters, registry), FilterPanel.Chips(items, registry);
    forall k | 0 <= k < |mine| ensures mine[k] == theirs[k].(value := mine[k].value) {
      assert mine[k] == PropertyFilterListItem(setFilters[k], registry);
      assert theirs[k] == FilterPanel.FilterChip(ToPanel(setFilters[k]), registry);
    }
  }

  /** The container selects the same item as the panel and shows the same popover content. */
  lemma ContentAgrees<M, A>(filters: seq<FilterItem<M, A>>, registry: Registry,
                            selectedLabel: Option<string>, search: string)
    ensures var items := Seqs.Map(filters, ToPanel);
      && SelectedFilter(filters, selectedLabel) == FilterPanel.SelectedFilter(items, selectedLabel)
      && Content(filters, registry, selectedLabel, search) == FilterPanel.Content(items, registry, selectedLabel, search)
  {
    var items := Seqs.Map(filters, ToPanel);
    assert forall i :: 0 <= i < |filters| ==> items[i].caption == filters[i].caption;
    assert Seqs.Map(filters, TableFilterMenuItem) == FilterPanel.BrowseEntries(items);
  }

  /**
   * Apart from the value segment, the two variants render the same: the same chips in
   * the same order, the same selected item and the same popover content.
   */
  lemma AgreesWithPanel<M, A>(filters: seq<FilterItem<M, A>>, registry: Registry,
                              selectedLabel: Option<string>, search: string)
    ensures var items := Seqs.Map(filters, ToPanel);
      var mine, theirs := PropertyFilterList(filters, registry), FilterPanel.Chips(items, registry);
      && |mine| == |theirs|
      && (forall k :: 0 <= k < |mine| ==> mine[k] == theirs[k].(value := mine[k].value))
      && SelectedFilter(filters, selectedLabel) == FilterPanel.SelectedFilter(items, selectedLabel)
      && Content(filters, registry, selectedLabel, search) == FilterPanel.Content(items, registry, selectedLabel, search)
  {
    ChipsAgree(filters, registry);
    ContentAgrees(filters, registry, selectedLabel, search);
  }
}
