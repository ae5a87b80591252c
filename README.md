# Data-table filter panel: a Dafny model

This project models the decision logic under a React filter panel for tabular data.
The panel has a **selector** and a **chip list**. The selector is a trigger button with a popover. The popover lists the filter items, or shows the Controller of the item that was chosen. The chip list shows one chip per filter that is set. Each chip has a label, a value segment and an optional remove button.

Both parts read the same two inputs: the filter items and a **registry**. The registry maps a filter type tag to a pair of renderers: a compact Display and an interactive Controller. A **table adapter** builds the items from a table's columns and their filter values. The one shipped strategy, **option**, is a single-select list.

Modules, one per source file plus three helpers:

- `FilterPanel` (`filter-panel.tsx`) holds the registry, the filter item, the chips, the value segment and the selector's content. The class `Selector` holds the selector's local state: `open`, the search text and the selected label.
- `FilterContainer` (`filter-container.tsx`) is the older near-copy. Its payload is called `meta` and its value segment needs both renderers. It has its own functions and its own state class `TableFilter`. Two lemmas state exactly how it agrees with `FilterPanel` and how it differs.
- `FilterComponents` (`filter-components.tsx`) is the option strategy: `Display`, `Controller`, and selecting an entry.
- `DataTableFilters` (`use-data-table-filters.ts`) covers column selection, option derivation, item construction and the writes made by the callbacks. The class `FilterValueStore` is the table's per-column filter-value store. The end-to-end round trips are proved here.
- `Seqs` models JavaScript's `filter`, `map` and `find`. `Strings` models the order and the sort that `Array.prototype.sort()` uses on strings. `Wrappers` provides `Option`, which stands for a value that may be `undefined`.

How the source is represented:

- Rendering is modelled as the value a component describes: a chip, a menu entry, a value cell or the popover's content. A renderer is named by a `ComponentId`. An element is a renderer together with its props.
- Callbacks are data. In the adapter, `remove` is `Callback(Write(column, None))`. The handle of `onValueChange` is the column id. Choosing a Controller entry yields an `Invocation`. The store applies a `Write`.
- The source's field names `label` and `type` are Dafny keywords. They appear here as `caption` and `kind`.

Behaviour the model follows:

- `find` returns the first match, so the first item with a label is the one selected.
- The search text is cleared, after a delay, when the popover closes (the effect on `open`).
- The raw faceted keys are sorted and cut to 5000, and only then mapped.

## Model

| member | source | states |
|---|---|---|
| `FilterPanel.ControllerFor` | src/components/ui/filter/filter-panel.tsx:108-110 | `components[type]?.Controller` is present exactly when the tag is registered and its entry has a Controller, and it is that Controller |
| `FilterPanel.FilterChipValue` | src/components/ui/filter/filter-panel.tsx:249-258 | the value segment is nothing exactly when the type tag has no registry entry; otherwise it holds that entry's Display and Controller, fed the item's config |
| `FilterPanel.FilterChip` | src/components/ui/filter/filter-panel.tsx:205-234 | a chip shows the item's label and icon and its value segment; the remove control exists exactly when `remove !== false`, and then it holds the item's callback |
| `FilterPanel.ClickRemove` | src/components/ui/filter/filter-panel.tsx:223-226 | clicking an existing remove button makes exactly one call |
| `FilterPanel.RemoveCallsOnce` | src/components/ui/filter/filter-panel.tsx:220-226 | for an item whose `remove` is a callback, the chip has a remove control, and activating it calls exactly that callback, once |
| `FilterPanel.Chips` | src/components/ui/filter/filter-panel.tsx:187-203 | every chip is the chip of some item that is set, and every set item's chip is in the list; there are no more chips than items |
| `FilterPanel.ChipsAreSetItems` | src/components/ui/filter/filter-panel.tsx:187-203 | the chips are exactly the chips of the items with `isSet`, in item order: chip k belongs to item idx[k], idx is strictly increasing, and a position is in idx exactly when its item is set |
| `FilterPanel.HasFilters` | src/components/ui/filter/filter-panel.tsx:98-104 | the early-return loop yields true exactly when some item is set |
| `FilterPanel.ShowsFilterText` | src/components/ui/filter/filter-panel.tsx:150 | the trigger's "Filter" text is shown exactly when keeping only the set items leaves nothing |
| `FilterPanel.FilterTextIffNoChips` | src/components/ui/filter/filter-panel.tsx:148-150 | the trigger's "Filter" text (`!hasFilters`) is shown exactly when the chip list is empty |
| `FilterPanel.SelectedFilter` | src/components/ui/filter/filter-panel.tsx:81-84 | no selection for an undefined or empty label; otherwise the first item carrying that label, so a duplicate label resolves to its first item; none when no item carries it |
| `FilterPanel.MenuItem` | src/components/ui/filter/filter-panel.tsx:163-175 | a menu entry shows the item, and it is disabled exactly when the item is not enabled |
| `FilterPanel.BrowseEntries` | src/components/ui/filter/filter-panel.tsx:124-134 | the browse list has one entry per item, in item order |
| `FilterPanel.Content` | src/components/ui/filter/filter-panel.tsx:106-137 | the popover shows the browse list exactly when nothing is selected, nothing exactly when the selected item's type has no Controller, and otherwise an Edit of that Controller fed the item's config |
| `FilterPanel.ContentCases` | src/components/ui/filter/filter-panel.tsx:106-136 | stated by label: the browse list for an unset, empty or unknown label; for the first item carrying the label, its type's Controller fed its config, or nothing when the type has no Controller |
| `FilterPanel.Selector.constructor` | src/components/ui/filter/filter-panel.tsx:76-80 | the selector starts closed, with an empty search and no selected label |
| `FilterPanel.Selector.Phase` | src/components/ui/filter/filter-panel.tsx:76-84 | the selector is closed exactly when `open` is false, browses exactly when it is open with no selected item, and otherwise edits the selected item, which is the first that carries the selected label (`find`) |
| `FilterPanel.Selector.View` | src/components/ui/filter/filter-panel.tsx:139-158 | the popover content is shown exactly while the selector is open, and it is then the popover's `content` for the current items, label and search |
| `FilterPanel.Selector.OnOpenChange` | src/components/ui/filter/filter-panel.tsx:140-145 | sets `open`; closing clears the selected label and, through the effect at lines 94-96, the search text; opening changes nothing else; it keeps the invariant "closed implies idle" |
| `FilterPanel.Selector.Open` | src/components/ui/filter/filter-panel.tsx:142-143 | opening a closed selector shows the browse list of all items with an empty search |
| `FilterPanel.Selector.OnSearchChange` | src/components/ui/filter/filter-panel.tsx:117-119 | typing sets the search text and nothing else |
| `FilterPanel.Selector.SelectMenuItem` | src/components/ui/filter/filter-panel.tsx:87-92 | choosing an enabled entry selects its label; the search is cleared when the label changed and is non-empty; a non-empty label moves the selector to editing the first item with that label; an empty label stays on the browse list |
| `FilterContainer.PropertyFilterValueController` | src/components/ui/data-table-filters/filter-container.tsx:250-262 | the value segment exists exactly when the type is registered with both a Display and a Controller; then it holds both, fed the item's meta |
| `FilterContainer.PropertyFilterListItem` | src/components/ui/data-table-filters/filter-container.tsx:202-231 | the chip shows the filter's label and icon; the remove button exists exactly when `remove !== false`, and then it holds the filter's callback |
| `FilterContainer.PropertyFilterList` | src/components/ui/data-table-filters/filter-container.tsx:179-199 | every listed chip is the chip of some set filter, and every set filter's chip is listed; there are no more chips than filters |
| `FilterContainer.ListedAreSetFilters` | src/components/ui/data-table-filters/filter-container.tsx:179-199 | the chip list is the order-preserving filter of the filters by `isSet`, with the same position characterisation as the panel's |
| `FilterContainer.HasFilters` | src/components/ui/data-table-filters/filter-container.tsx:90-96 | the early-return loop yields true exactly when some filter is set |
| `FilterContainer.ShowsFilterText` | src/components/ui/data-table-filters/filter-container.tsx:142 | the "Filter" text is shown exactly when keeping only the set filters leaves nothing |
| `FilterContainer.FilterTextIffNoChips` | src/components/ui/data-table-filters/filter-container.tsx:139-143 | the "Filter" label is shown exactly when no chip is listed |
| `FilterContainer.SelectedFilter` | src/components/ui/data-table-filters/filter-container.tsx:73-76 | none for an undefined or empty label; otherwise the first filter with that label, or none when no filter has it |
| `FilterContainer.TableFilterMenuItem` | src/components/ui/data-table-filters/filter-container.tsx:155-167 | a menu entry is disabled exactly when its filter is not enabled |
| `FilterContainer.Content` | src/components/ui/data-table-filters/filter-container.tsx:98-129 | the browse list of all filters exactly when nothing is selected, nothing exactly when the selected filter's type has no Controller, and otherwise an Edit of that Controller fed its meta |
| `FilterContainer.TableFilter.constructor` | src/components/ui/data-table-filters/filter-container.tsx:68-72 | starts closed, with an empty search and no selected label |
| `FilterContainer.TableFilter.Phase` | src/components/ui/data-table-filters/filter-container.tsx:68-76 | closed exactly when `open` is false, browsing exactly when open with no selected filter, otherwise editing the selected filter, the first that carries the selected label (`find`) |
| `FilterContainer.TableFilter.View` | src/components/ui/data-table-filters/filter-container.tsx:131-151 | content is shown exactly while the popover is open, and it is then `content` for the current filters, label and search |
| `FilterContainer.TableFilter.OnOpenChange` | src/components/ui/data-table-filters/filter-container.tsx:132-137 | closing clears the selected label and the search text; it keeps "closed implies idle" |
| `FilterContainer.TableFilter.OnSearchChange` | src/components/ui/data-table-filters/filter-container.tsx:109-111 | typing sets the search text only |
| `FilterContainer.TableFilter.SelectMenuItem` | src/components/ui/data-table-filters/filter-container.tsx:79-84 | selecting an enabled filter sets the label, clears the search when the label is non-empty and new, and edits the first filter with that label |
| `FilterContainer.ValueCellStricterThanPanel` | src/components/ui/data-table-filters/filter-container.tsx:259-262 | whenever the container shows a value segment, the panel shows the same one; they differ exactly when the entry exists but lacks its Display or its Controller |
| `FilterContainer.ChipsAgree` | src/components/ui/data-table-filters/filter-container.tsx:179-231 | the container's chips are the panel's, in the same order and position by position, apart from the value segment |
| `FilterContainer.ContentAgrees` | src/components/ui/data-table-filters/filter-container.tsx:73-129 | the container selects the same item as the panel and shows the same popover content |
| `FilterContainer.AgreesWithPanel` | src/components/ui/data-table-filters/filter-container.tsx:73-129 | apart from the value segment, the container and the panel render the same chips in the same order, select the same item and show the same popover content |
| `DataTableFilters.NonNullableFilter` | src/components/ui/filter/use-data-table-filters.ts:114-116 | true exactly when the value is neither `null` nor `undefined` |
| `DataTableFilters.Bind` | src/components/ui/filter/use-data-table-filters.ts:64-68 | a column becomes a binding exactly when it has filter metadata, and the binding holds that column and its own metadata; otherwise `undefined`, never `null` |
| `DataTableFilters.FilterableColumns` | src/components/ui/filter/use-data-table-filters.ts:61-70 | every binding pairs a column with that column's own filter metadata |
| `DataTableFilters.FilterableColumnsAreQualifying` | src/components/ui/filter/use-data-table-filters.ts:61-70 | the filter, map and `filter(nonNullableFilter)` pipeline keeps exactly the columns that can filter and carry `meta.filter`, in column order |
| `DataTableFilters.ToOption` | src/components/ui/filter/use-data-table-filters.ts:81-87 | without a transform, a raw value becomes `{label: v, value: v}`; with one, it is the transform applied to the value |
| `DataTableFilters.DeriveOptions` | src/components/ui/filter/use-data-table-filters.ts:75-88 | declared options are used verbatim, even an empty list; otherwise there are min(n, 5000) options, and option k is the transform of the k-th sorted raw key, so mapping comes after sorting and truncation |
| `DataTableFilters.DerivedOptionsAscending` | src/components/ui/filter/use-data-table-filters.ts:78-80 | derived identity options are ascending by value, at most 5000, each labelled by its value and an observed key; a key left out sorts no earlier than any kept one |
| `Strings.Sort` | src/components/ui/filter/use-data-table-filters.ts:79 | `sort()` on string keys returns an ascending permutation of the keys |
| `DataTableFilters.FilterValue` | src/components/ui/filter/use-data-table-filters.ts:90 | `getFilterValue()` is defined exactly when the store holds a value for the column, and it is that value |
| `DataTableFilters.MakeItem` | src/components/ui/filter/use-data-table-filters.ts:92-106 | the item has the metadata's label and icon, is enabled, has type "option", is set exactly when the store holds a value for the column, carries the column's derived options and its value, and both callbacks write to its own column (`remove` writes `undefined`) |
| `DataTableFilters.FilterItems` | src/components/ui/filter/use-data-table-filters.ts:72-109 | one item per bound column, in order, each built from its binding and the current filter values |
| `DataTableFilters.ItemsDescribeColumns` | src/components/ui/filter/use-data-table-filters.ts:90-106 | exactly one item per qualifying column, in column order, and none for the others; each item has the metadata's label and icon, `isEnabled`, type "option", the column's options and value, `isSet` exactly when the value is defined, and callbacks that write to its own column |
| `DataTableFilters.Apply` | src/components/ui/filter/use-data-table-filters.ts:97-105 | after a write, the column's filter value is the written one (undefined clears it), and every other column's value is unchanged |
| `DataTableFilters.OnValueChange` | src/components/ui/filter/use-data-table-filters.ts:97-99 | `onValueChange(v)` becomes `setFilterValue(v)` on the column the callback belongs to |
| `DataTableFilters.WriteChangesOnlyItsColumn` | src/components/ui/filter/use-data-table-filters.ts:97-105 | with each column's faceted keys held fixed, after a write the re-derived items of other columns are unchanged; the written column's item has the new value and is set exactly when that value is defined, with its options unchanged |
| `DataTableFilters.SelectThenDisplay` | src/components/ui/filter/use-data-table-filters.ts:97-99 | choosing an option in an item's Controller, writing it and re-deriving gives a set item with the same options, whose Display shows the label of the first option with the chosen value |
| `DataTableFilters.RemoveUnsets` | src/components/ui/filter/use-data-table-filters.ts:105 | the chip's remove button makes one call; applying it leaves the re-derived item unset, and, with faceted keys held fixed, every other column's item unchanged |
| `DataTableFilters.AdapterItemsRenderFully` | src/components/ui/filter/use-data-table-filters.ts:46-52 | with the adapter's registry, every item's chip has a value segment with both option renderers and a remove control, and its type has a Controller |
| `DataTableFilters.FilterValueStore.GetFilterValue` | src/components/ui/filter/use-data-table-filters.ts:90 | it is `getFilterValue()` over the stored values: defined exactly when the store holds one for the column |
| `DataTableFilters.FilterValueStore.SetFilterValue` | src/components/ui/filter/use-data-table-filters.ts:98 | the column now reads back the value that was set, and every other column reads as before |
| `DataTableFilters.FilterValueStore.Perform` | src/components/ui/filter/use-data-table-filters.ts:97-105 | running an item's callback applies its write to the store |
| `DataTableFilters.FilterValueStore.Items` | src/components/ui/filter/use-data-table-filters.ts:56-112 | the items are `FilterItems` over the store's current values: one per filterable column |
| `FilterComponents.Display` | src/components/ui/filter/filter-components.tsx:64-76 | shows nothing exactly when no option holds the current value (undefined or stale); otherwise the label of the first option that holds it |
| `FilterComponents.Controller` | src/components/ui/filter/filter-components.tsx:23-62 | one entry per option, in order; each entry is keyed by the option's value and labelled by its label, and is checked exactly when the option's value is the current value |
| `FilterComponents.Select` | src/components/ui/filter/filter-components.tsx:43-45 | choosing entry i calls `onValueChange` with that entry's value |
| `FilterComponents.SelectIgnoresCurrentValue` | src/components/ui/filter/filter-components.tsx:43-45 | there is no toggle-off: the call never passes undefined, it does not depend on the current value, and on a checked entry it passes the current value again |
| `FilterComponents.CheckedIffDisplayed` | src/components/ui/filter/filter-components.tsx:38 | some entry is checked exactly when Display shows something |
| `FilterComponents.FirstWithValue` | src/components/ui/filter/filter-components.tsx:66 | the first option with a given value, or none exactly when no option has it |
| `FilterComponents.DisplayOfValue` | src/components/ui/filter/filter-components.tsx:64-69 | when v is the current value, Display shows the label of the first option with value v, or nothing when no option has it |
| `FilterComponents.SelectThenDisplay` | src/components/ui/filter/filter-components.tsx:64-69 | once the chosen value is the current value, Display shows the label of the first option with that value, which lies at or before the chosen one; with unique option values it is the chosen option's own label |

## Left out

- JSX layout, CSS classes, icons, `Separator` and `Button` are presentation only. An icon is kept as an opaque name. The optional icon of a `ColumnOption` is dropped.
- The popover's open and close mechanics and the command list's search, matching and keyboard navigation belong to foreign libraries. The search text is kept as state only. "Disabled entries cannot be chosen" is a precondition of `SelectMenuItem`. So is "only a visible browse list can be chosen from".
- The 150 ms and 100 ms `setTimeout` delays and the `inputRef.focus()` call are timing and DOM focus. On close, both clears happen at once.
- Event propagation is left out: the remove button is a sibling of the value segment's popover trigger (filter-panel.tsx:217-231), so the model needs no DOM events.
- The table engine itself is left out: how faceted values are computed, row filtering and pagination. A column is given as its id, `getCanFilter()`, its metadata and its faceted keys. Filter values are a map.
- DataTableFilters.Apply: the table engine also drops an empty-string filter value, and one that its filter function's `autoRemove` rejects. Only `undefined` clears a value in this model.
- DataTableFilters.SelectThenDisplay: choosing an option whose value is `""` (which empty cells produce) leaves the item set in this model, while the table engine would drop that value and leave the item unset.
- DataTableFilters.WriteChangesOnlyItsColumn: faceted keys are held fixed across a write. In the table engine a column's faceted values come from the rows that pass every other column's filter, so a write to one column can change another column's derived options when that column declares no static options. The half about the written column itself is unaffected, because a column's own filter does not narrow its own facets.
- DataTableFilters.RemoveUnsets: the "every other column's item is unchanged" half holds only with faceted keys held fixed, for the same reason.
- Strings.Sort: JavaScript compares UTF-16 code units, but this model compares Unicode code points. The two orders differ only on characters outside the Basic Multilingual Plane. Non-string faceted keys are not modelled.
- The compile-time link between a type tag and its config's shape is left out. Config is a type parameter, and a missing registry entry degrades to "nothing rendered".
- The panel's `FilterChipValue` renders the entry's Display and Controller without checking that they exist. A value cell in the model records a missing renderer as `None`. The model does not describe what React does with an undefined component.
- `src/routes/index.tsx` is a demo page with generated data and no logic of its own. It is not part of this model.
