/**
 * The one filter strategy shipped with the widget: a single-select list of options.
 * `Display` shows the label of the option holding the current value; `Controller`
 * lists the options, checks the current one, and hands the chosen option's value to
 * the configuration's `onValueChange` callback.
 */
module FilterComponents {
  import opened Wrappers
  import Seqs

  /** One selectable option: what is shown and what is stored. */
  datatype ColumnOption = ColumnOption(caption: string, value: string)

  /**
   * The strategy's configuration: the options, the current value (None for
   * `undefined`) and the `onValueChange` callback, represented by a handle `H`
   * that says whom the call goes to.
   */
  datatype OptionConfig<H> = OptionConfig(options: seq<ColumnOption>, value: Option<string>, onValueChange: H)

  /** A call of a callback with its argument (None for `undefined`). */
  datatype Invocation<H> = Invocation(handler: H, arg: Option<string>)

  /** One row of the Controller's list: its key, the label shown and the checkbox state. */
  datatype ControllerEntry = ControllerEntry(key: string, caption: string, checked: bool)

  /** `o.value === value` with `value` possibly `undefined`. */
  predicate Holds(o: ColumnOption, value: Option<string>)
  {
    value == Some(o.value)
  }

  /**
   * `Display`: the label of the first option whose value is the current value, or
   * nothing when no option holds it (an `undefined` or stale value).
   */
  function Display<H>(cfg: OptionConfig<H>): (shown: Option<string>)
    ensures shown.None? <==> forall i :: 0 <= i < |cfg.options| ==> !Holds(cfg.options[i], cfg.value)
    ensures shown.Some? ==>
      exists i :: 0 <= i < |cfg.options| && Holds(cfg.options[i], cfg.value) && shown.value == cfg.options[i].caption
                  && forall j :: 0 <= j < i ==> !Holds(cfg.options[j], cfg.value)
  {
    match Seqs.FindFirst(cfg.options, o => Holds(o, cfg.value))
    case None => None
    case Some(i) => Some(cfg.options[i].caption)
  }

  /** `Controller`'s list: one entry per option, in order, checked when it holds the current value. */
  function Controller<H>(cfg: OptionConfig<H>): (entries: seq<ControllerEntry>)
    ensures |entries| == |cfg.options|
    ensures forall i :: 0 <= i < |entries| ==>
      entries[i].key == cfg.options[i].value && entries[i].caption == cfg.options[i].caption
    ensures forall i :: 0 <= i < |entries| ==> (entries[i].checked <==> Holds(cfg.options[i], cfg.value))
  {
    Seqs.Map(cfg.options, (o: ColumnOption) => ControllerEntry(o.value, o.caption, Holds(o, cfg.value)))
  }

  /** Choosing the `i`-th entry of the Controller's list: the callback it makes. */
  function Select<H>(cfg: OptionConfig<H>, i: nat): (call: Invocation<H>)
    requires i < |cfg.options|
    ensures call.handler == cfg.onValueChange
    ensures call.arg == Some(Controller(cfg)[i].key)
  {
    Invocation(cfg.onValueChange, Some(cfg.options[i].value))
  }

  /**
   * There is no toggle-off: choosing an entry passes that option's value whether or not
   * it is already checked, and the call does not depend on the current value at all.
   */
  lemma SelectIgnoresCurrentValue<H>(cfg: OptionConfig<H>, i: nat, current: Option<string>)
    requires i < |cfg.options|
    ensures Select(cfg.(value := current), i) == Select(cfg, i)
    ensures Controller(cfg)[i].checked ==> Select(cfg, i).arg == cfg.value
    ensures Select(cfg, i).arg != None
  {
  }

  /** Some entry of the Controller is checked exactly when Display shows something. */
  lemma CheckedIffDisplayed<H>(cfg: OptionConfig<H>)
    ensures (exists i :: 0 <= i < |cfg.options| && Controller(cfg)[i].checked) <==> Display(cfg).Some?
  {
    var entries := Controller(cfg);
    if Display(cfg).Some? {
      var i :| 0 <= i < |cfg.options| && Holds(cfg.options[i], cfg.value);
      assert entries[i].checked;
    }
  }

  /** The first option holding `v`, where there is one. */
  function FirstWithValue(options: seq<ColumnOption>, v: string): (r: Option<nat>)
    ensures r.Some? ==> r.value < |options| && options[r.value].value == v
    ensures r.Some? ==> forall j :: 0 <= j < r.value ==> options[j].value != v
    ensures r.None? <==> forall j :: 0 <= j < |options| ==> options[j].value != v
  {
    Seqs.FindFirst(options, o => Holds(o, Some(v)))
  }

  /**
   * Display once `v` is the current value: the label of the first option with value
   * `v`, or nothing when no option has it.
   */
  lemma {:induction false} DisplayOfValue<H>(cfg: OptionConfig<H>, v: string)
    requires cfg.value == Some(v)
    ensures Display(cfg) == match FirstWithValue(cfg.options, v)
                           case None => None
                           case Some(i) => Some(cfg.options[i].caption)
  {
    var first := FirstWithValue(cfg.options, v);
    if first.Some? {
      var i :| 0 <= i < |cfg.options| && Holds(cfg.options[i], cfg.value) && Display(cfg).value == cfg.options[i].caption
                 && forall j :: 0 <= j < i ==> !Holds(cfg.options[j], cfg.value);
      assert i == first.value;
    }
  }

  /**
   * Selecting then displaying: once the value chosen through the Controller is the
   * current value, Display shows the label of the first option with that value,
   * which is the chosen option's own label when option values are unique.
   */
  lemma {:induction false} SelectThenDisplay<H>(cfg: OptionConfig<H>, i: nat)
    requires i < |cfg.options|
    ensures var after := cfg.(value := Select(cfg, i).arg);
            var j := FirstWithValue(cfg.options, cfg.options[i].value);
            j.Some? && j.value <= i && Display(after) == Some(cfg.options[j.value].caption)
    ensures (forall k, l :: 0 <= k < l < |cfg.options| ==> cfg.options[k].value != cfg.options[l].value) ==>
            Display(cfg.(value := Select(cfg, i).arg)) == Some(cfg.options[i].caption)
  {
    var after := cfg.(value := Select(cfg, i).arg);
    var v := cfg.options[i].value;
    DisplayOfValue(after, v);
    var j := FirstWithValue(cfg.options, v);
    assert cfg.options[i].value == v;
  }
}
