/**
 * The table adapter: it turns the table's columns and their current filter values
 * into filter items for the panel, each of type "option", and turns the items'
 * callbacks into writes of the column's filter value.
 *
 * The table engine is abstracted: a column is its id, whether it can filter, its
 * filter metadata and the keys of its faceted unique values; the filter values are a
 * map from column id to value, absent meaning `undefined`.
 */
module DataTableFilters {
  import opened Wrappers
  import Seqs
  import Strings
  import FilterComponents
  import FilterPanel

  type ColumnId = string

  /** At most this many options are derived from a column's observed values. */
  const MaxDerivedOptions: nat := 5000

  const OptionType: FilterPanel.TypeTag := "option"
  const OptionDisplay: FilterPanel.ComponentId := "optionFilterComponent.Display"
  const OptionController: FilterPanel.ComponentId := "optionFilterComponent.Controller"

  /** `dataTableFilterComponents`: the option strategy registered under "option". */
  const Registry: FilterPanel.Registry :=
    map[OptionType := FilterPanel.Strategy(Some(OptionDisplay), Some(OptionController))]

  /** `meta.filter`: label, icon, optional static options and optional raw-value transform. */
  datatype FilterDef = FilterDef(
    caption: string, icon: FilterPanel.Icon,
    options: Option<seq<FilterComponents.ColumnOption>>,
    transform: Option<string -> FilterComponents.ColumnOption>)

  /** A column: `getCanFilter()`, `columnDef.meta?.filter` and `getFacetedUniqueValues().keys()`. */
  datatype Column = Column(id: ColumnId, canFilter: bool, filter: Option<FilterDef>, facetedKeys: seq<string>)

  /** `column.setFilterValue(value)`, with None for `undefined`. */
  datatype Write = Write(column: ColumnId, value: Option<string>)

  type Config = FilterComponents.OptionConfig<ColumnId>
  type Item = FilterPanel.FilterItem<Config, Write>

  /** A JavaScript value that may be `null` or `undefined`. */
  datatype Nullable<T> = Null | Undefined | Defined(value: T)

  /** `nonNullableFilter`: neither `null` nor `undefined`. */
  predicate NonNullableFilter<T>(x: Nullable<T>): (r: bool)
    ensures r <==> x.Defined?
  {
    !x.Null? && !x.Undefined?
  }

  /** `{ column, filterDef }`. */
  datatype Binding = Binding(column: Column, def: FilterDef)

  predicate CanFilter(c: Column)
  {
    c.canFilter
  }

  /** The `map` step: a binding when the column has filter metadata, `undefined` otherwise. */
  function Bind(c: Column): (r: Nullable<Binding>)
    ensures !r.Null?
    ensures r.Defined? <==> c.filter.Some?
    ensures r.Defined? ==> r.value.column == c && r.value.def == c.filter.value
  {
    if c.filter.Some? then Defined(Binding(c, c.filter.value)) else Undefined
  }

  /** The type narrowing done by `.filter(nonNullableFilter)`. */
  function Narrow<T>(s: seq<Nullable<T>>): (r: seq<T>)
    requires forall i :: 0 <= i < |s| ==> NonNullableFilter(s[i])
    ensures |r| == |s|
    ensures forall i :: 0 <= i < |s| ==> s[i] == Defined(r[i])
    decreases |s|
  {
    if s == [] then []
    else
      assert NonNullableFilter(s[0]);
      [s[0].value] + Narrow(s[1..])
  }

  /** `columns` in `useDataTableFilterItems`: filter by `getCanFilter`, bind, drop the unbound. */
  function FilterableColumns(columns: seq<Column>): (r: seq<Binding>)
    ensures forall k :: 0 <= k < |r| ==> r[k].column.filter == Some(r[k].def)
  {
    var bound := Seqs.Map(Seqs.Filter(columns, CanFilter), Bind);
    var kept := Seqs.Filter(bound, NonNullableFilter);
    var r := Narrow(kept);
    assert forall k :: 0 <= k < |r| ==> r[k].column.filter == Some(r[k].def) by {
      forall k | 0 <= k < |r| ensures r[k].column.filter == Some(r[k].def) {
        assert kept[k] in bound;
      }
    }
    r
  }

  predicate Qualifies(c: Column)
  {
    c.canFilter && c.filter.Some?
  }

  function ColumnOf(b: Binding): Column
  {
    b.column
  }

  lemma {:induction false} FilterableColumnsAppend(a: seq<Column>, b: seq<Column>)
    ensures FilterableColumns(a + b) == FilterableColumns(a) + FilterableColumns(b)
  {
    Seqs.FilterAppend(a, b, CanFilter);
    var fa, fb := Seqs.Filter(a, CanFilter), Seqs.Filter(b, CanFilter);
    Seqs.MapAppend(fa, fb, Bind);
    Seqs.FilterAppend(Seqs.Map(fa, Bind), Seqs.Map(fb, Bind), NonNullableFilter);
  }

  lemma FilterableColumn(c: Column)
    ensures Seqs.Map(FilterableColumns([c]), ColumnOf) == if Qualifies(c) then [c] else []
  {
    assert Seqs.Filter([c], CanFilter) == if c.canFilter then [c] else [];
    assert FilterableColumns([c]) == if Qualifies(c) then [Binding(c, c.filter.value)] else [];
  }

  /**
   * The `filter`, `map`, `filter(nonNullableFilter)` pipeline keeps exactly the columns
   * that can filter and carry filter metadata, in column order.
   */
  lemma {:induction false} FilterableColumnsAreQualifying(columns: seq<Column>)
    ensures Seqs.Map(FilterableColumns(columns), ColumnOf) == Seqs.Filter(columns, Qualifies)
    decreases |columns|
  {
    if columns != [] {
      var c, rest := columns[0], columns[1..];
      assert columns == [c] + rest;
      FilterableColumnsAppend([c], rest);
      FilterableColumnsAreQualifying(rest);
      FilterableColumn(c);
      Seqs.MapAppend(FilterableColumns([c]), FilterableColumns(rest), ColumnOf);
      assert Seqs.Filter(columns, Qualifies) == (if Qualifies(c) then [c] else []) + Seqs.Filter(rest, Qualifies);
    }
  }

  // ---------------------------------------------------------------- options

  function Min(a: nat, b: nat): nat
  {
    if a < b then a else b
  }

  /** One raw value as an option: `transformOptionFn(v)` when given, `{label: v, value: v}` otherwise. */
  function ToOption(def: FilterDef, v: string): (o: FilterComponents.ColumnOption)
    ensures def.transform.None? ==> o.caption == v && o.value == v
    ensures def.transform.Some? ==> o == def.transform.value(v)
  {
    match def.transform
    case Some(f) => f(v)
    case None => FilterComponents.ColumnOption(v, v)
  }

  /**
   * A column's options: the static ones verbatim when declared (an empty list counts as
   * declared); otherwise its faceted keys sorted, cut to the first 5000, and only then
   * each turned into an option.
   */
  function DeriveOptions(def: FilterDef, keys: seq<string>): (options: seq<FilterComponents.ColumnOption>)
    ensures def.options.Some? ==> options == def.options.value
    ensures def.options.None? ==> |options| == Min(|keys|, MaxDerivedOptions)
    ensures def.options.None? ==> forall k :: 0 <= k < |options| ==> options[k] == ToOption(def, Strings.Sort(keys)[k])
  {
    if def.options.Some? then def.options.value
    else
      var sorted := Strings.Sort(keys);
      Seqs.Map(sorted[..Min(|keys|, MaxDerivedOptions)], v => ToOption(def, v))
  }

  /**
   * Without static options or a transform, the derived options are ascending by value,
   * each labelled by its value, at most 5000 of them, all observed keys, and the ones
   * left out sort no earlier than any kept: the 5000 smallest are the ones kept.
   */
  lemma DerivedOptionsAscending(def: FilterDef, keys: seq<string>)
    requires def.options.None? && def.transform.None?
    ensures var options := DeriveOptions(def, keys);
      && |options| <= MaxDerivedOptions
      && (forall i :: 0 <= i < |options| ==> options[i].caption == options[i].value && options[i].value in keys)
      && (forall i, j :: 0 <= i < j < |options| ==> Strings.Le(options[i].value, options[j].value))
      && (forall i, x :: 0 <= i < |options| && x in keys && (forall j :: 0 <= j < |options| ==> options[j].value != x)
                         ==> Strings.Le(options[i].value, x))
  {
    var options := DeriveOptions(def, keys);
    var sorted := Strings.Sort(keys);
    forall i | 0 <= i < |options| ensures options[i].value in keys {
      assert sorted[i] in multiset(sorted);
    }
    forall i, x | 0 <= i < |options| && x in keys && (forall j :: 0 <= j < |options| ==> options[j].value != x)
      ensures Strings.Le(options[i].value, x)
    {
      assert x in multiset(sorted);
      var m :| 0 <= m < |sorted| && sorted[m] == x;
      assert forall j :: 0 <= j < |options| ==> options[j].value == sorted[j];
      assert i < m;
    }
  }

  // ---------------------------------------------------------------- items

  /** `column.getFilterValue()`. */
  function FilterValue(values: map<ColumnId, string>, id: ColumnId): (v: Option<string>)
    ensures v.Some? <==> id in values
    ensures v.Some? ==> v.value == values[id]
  {
    if id in values then Some(values[id]) else None
  }

  /** The item built for one bound column. */
  function MakeItem(b: Binding, values: map<ColumnId, string>): (item: Item)
    ensures item.caption == b.def.caption && item.icon == b.def.icon
    ensures item.isEnabled && item.kind == OptionType
    ensures item.isSet <==> b.column.id in values
    ensures item.config.value == FilterValue(values, b.column.id)
    ensures item.config.options == DeriveOptions(b.def, b.column.facetedKeys)
    ensures item.config.onValueChange == b.column.id
    ensures item.remove == FilterPanel.Callback(Write(b.column.id, None))
  {
    var value := FilterValue(values, b.column.id);
    FilterPanel.FilterItem(
      caption := b.def.caption,
      icon := b.def.icon,
      isEnabled := true,
      isSet := value.Some?,
      remove := FilterPanel.Callback(Write(b.column.id, None)),
      kind := OptionType,
      config := FilterComponents.OptionConfig(DeriveOptions(b.def, b.column.facetedKeys), value, b.column.id))
  }

  /** `useDataTableFilterItems`: one item per filterable column, in column order. */
  function FilterItems(columns: seq<Column>, values: map<ColumnId, string>): (items: seq<Item>)
    ensures |items| == |FilterableColumns(columns)|
    ensures forall k :: 0 <= k < |items| ==> items[k] == MakeItem(FilterableColumns(columns)[k], values)
  {
    Seqs.Map(FilterableColumns(columns), (b: Binding) => MakeItem(b, values))
  }

  /**
   * Exactly one item per column that can filter and has filter metadata, in column
   * order, none for the other columns; each item has the metadata's label and icon, is
   * enabled, is of type "option", carries the column's options and filter value, is
   * set exactly when that value is defined, and writes to its own column.
   */
  lemma ItemsDescribeColumns(columns: seq<Column>, values: map<ColumnId, string>) returns (idx: seq<nat>)
    ensures |idx| == |FilterItems(columns, values)|
    ensures forall k, l :: 0 <= k < l < |idx| ==> idx[k] < idx[l]
    ensures forall i :: 0 <= i < |columns| ==> (Qualifies(columns[i]) <==> i in idx)
    ensures forall k :: 0 <= k < |idx| ==> (idx[k] < |columns| && columns[idx[k]].filter.Some? &&
      var c, item := columns[idx[k]], FilterItems(columns, values)[k];
      && item.caption == c.filter.value.caption && item.icon == c.filter.value.icon
      && item.isEnabled && item.kind == OptionType
      && (item.isSet <==> c.id in values)
      && item.config.value == FilterValue(values, c.id)
      && item.config.options == DeriveOptions(c.filter.value, c.facetedKeys)
      && item.config.onValueChange == c.id
      && item.remove == FilterPanel.Callback(Write(c.id, None)))
  {
    var bindings := FilterableColumns(columns);
    FilterableColumnsAreQualifying(columns);
    idx := Seqs.FilterPositions(columns, Qualifies);
    var qualifying := Seqs.Filter(columns, Qualifies);
    var items := FilterItems(columns, values);
    forall k | 0 <= k < |idx|
      ensures idx[k] < |columns| && columns[idx[k]].filter.Some?
      ensures items[k] == MakeItem(Binding(columns[idx[k]], columns[idx[k]].filter.value), values)
    {
      assert Seqs.Map(bindings, ColumnOf)[k] == bindings[k].column;
      assert bindings[k].column == qualifying[k] == columns[idx[k]];
    }
  }

  // ---------------------------------------------------------------- writes

  /** The filter values after a write: `undefined` clears the column's value (TanStack drops it). */
  function Apply(values: map<ColumnId, string>, w: Write): (after: map<ColumnId, string>)
    ensures FilterValue(after, w.column) == w.value
    ensures forall id :: id != w.column ==> FilterValue(after, id) == FilterValue(values, id)
  {
    match w.value
    case Some(v) => values[w.column := v]
    case None => values - {w.column}
  }

  /** The item's `onValueChange(value)`: `column.setFilterValue(value)`. */
  function OnValueChange(call: FilterComponents.Invocation<ColumnId>): (w: Write)
    ensures w.column == call.handler && w.value == call.arg
  {
    Write(call.handler, call.arg)
  }

  /**
   * A write reaches only its own column: after it, every item of another column is
   * what it was, and the item of the written column is set exactly when the written
   * value is defined, holding that value, with its options unchanged. Each column's
   * faceted keys are an input here, held fixed across the write.
   */
  lemma {:induction false} WriteChangesOnlyItsColumn(columns: seq<Column>, values: map<ColumnId, string>, w: Write, k: nat)
    requires k < |FilterItems(columns, values)|
    ensures var before, after := FilterItems(columns, values)[k], FilterItems(columns, Apply(values, w))[k];
      && |FilterItems(columns, Apply(values, w))| == |FilterItems(columns, values)|
      && (before.config.onValueChange != w.column ==> after == before)
      && (before.config.onValueChange == w.column ==>
            after == before.(isSet := w.value.Some?, config := before.config.(value := w.value)))
  {
    var b := FilterableColumns(columns)[k];
    assert FilterItems(columns, values)[k] == MakeItem(b, values);
    assert FilterItems(columns, Apply(values, w))[k] == MakeItem(b, Apply(values, w));
  }

  /**
   * Set then display: choosing option `i` in an item's Controller and writing the call
   * through `onValueChange` leaves the re-derived item set, with the same options, and
   * its Display shows the label of the first option with the chosen value.
   */
  lemma SelectThenDisplay(columns: seq<Column>, values: map<ColumnId, string>, k: nat, i: nat)
    requires k < |FilterItems(columns, values)|
    requires i < |FilterItems(columns, values)[k].config.options|
    ensures var item := FilterItems(columns, values)[k];
      var after := Apply(values, OnValueChange(FilterComponents.Select(item.config, i)));
      var item' := FilterItems(columns, after)[k];
      var j := FilterComponents.FirstWithValue(item.config.options, item.config.options[i].value);
      && item'.isSet && item'.config.options == item.config.options
      && j.Some? && FilterComponents.Display(item'.config) == Some(item.config.options[j.value].caption)
  {
    var item := FilterItems(columns, values)[k];
    var w := OnValueChange(FilterComponents.Select(item.config, i));
    WriteChangesOnlyItsColumn(columns, values, w, k);
    FilterComponents.SelectThenDisplay(item.config, i);
  }

  /**
   * Remove then re-derive: the remove callback of the chip of item `k` clears that
   * column's value, so the re-derived item is no longer set and gets no chip, while the
   * other columns' items, with their faceted keys held fixed, are unchanged.
   */
  lemma RemoveUnsets(columns: seq<Column>, values: map<ColumnId, string>, k: nat)
    requires k < |FilterItems(columns, values)|
    ensures var item := FilterItems(columns, values)[k];
      var called := FilterPanel.ClickRemove(FilterPanel.FilterChip(item, Registry));
      var after := Apply(values, called[0]);
      && |called| == 1
      && !FilterItems(columns, after)[k].isSet
      && (forall j :: 0 <= j < |FilterItems(columns, values)| && FilterItems(columns, values)[j].config.onValueChange != item.config.onValueChange
                      ==> FilterItems(columns, after)[j] == FilterItems(columns, values)[j])
  {
    var item := FilterItems(columns, values)[k];
    var w := Write(item.config.onValueChange, None);
    WriteChangesOnlyItsColumn(columns, values, w, k);
    forall j | 0 <= j < |FilterItems(columns, values)| && FilterItems(columns, values)[j].config.onValueChange != item.config.onValueChange
      ensures FilterItems(columns, Apply(values, w))[j] == FilterItems(columns, values)[j]
    {
      WriteChangesOnlyItsColumn(columns, values, w, j);
    }
  }

  /**
   * The adapter's items never take the degrade-to-empty paths: each chip has a value
   * segment with both renderers and a remove control, and a selected item's popover
   * shows the option Controller.
   */
  lemma AdapterItemsRenderFully(columns: seq<Column>, values: map<ColumnId, string>, k: nat)
    requires k < |FilterItems(columns, values)|
    ensures var item := FilterItems(columns, values)[k];
      var chip := FilterPanel.FilterChip(item, Registry);
      && chip.value == Some(FilterPanel.ValueCell(Some(OptionDisplay), Some(OptionController), item.config))
      && chip.removeControl.Some?
      && FilterPanel.ControllerFor(Registry, item.kind) == Some(OptionController)
  {
  }

  /**
   * The table's filter-value store, the one place filter values live: the items'
   * callbacks write into it, and the items are derived from it afresh.
   */
  class FilterValueStore {
    var values: map<ColumnId, string>

    constructor (initial: map<ColumnId, string>)
      ensures values == initial
    {
      values := initial;
    }

    /** `column.getFilterValue()`. */
    function GetFilterValue(id: ColumnId): (v: Option<string>)
      reads this
      ensures v.Some? <==> id in values
      ensures v == FilterValue(values, id)
    {
      FilterValue(values, id)
    }

    /** `column.setFilterValue(value)`: the column's value is `value`, the others are unchanged. */
    method SetFilterValue(id: ColumnId, value: Option<string>)
      modifies this
      ensures values == Apply(old(values), Write(id, value))
      ensures GetFilterValue(id) == value
      ensures forall other :: other != id ==> GetFilterValue(other) == old(GetFilterValue(other))
    {
      values := Apply(values, Write(id, value));
    }

    /** Runs a callback of an item: `onValueChange` or `remove`. */
    method Perform(w: Write)
      modifies this
      ensures values == Apply(old(values), w)
    {
      SetFilterValue(w.column, w.value);
    }

    /** The items derived from the columns and the current filter values. */
    function Items(columns: seq<Column>): (items: seq<Item>)
      reads this
      ensures |items| == |FilterableColumns(columns)|
      ensures items == FilterItems(columns, values)
    {
      FilterItems(columns, values)
    }
  }
}
